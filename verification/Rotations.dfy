/** Rotation matrices and the Rodrigues formula of libfranka/src/rate_limiting.cpp. */
module Rotations {
  import opened Reals
  import opened VectorLimiter

  // A 3x3 matrix by columns.
  datatype Mat3 = Mat3(c0: Vec3, c1: Vec3, c2: Vec3)

  // A row (a, b, c) of a matrix times a column.
  function Row(a: real, b: real, c: real, x: Vec3): real { a * x.x + b * x.y + c * x.z }

  function Apply(m: Mat3, x: Vec3): Vec3 {
    Vec3(Row(m.c0.x, m.c1.x, m.c2.x, x), Row(m.c0.y, m.c1.y, m.c2.y, x), Row(m.c0.z, m.c1.z, m.c2.z, x))
  }

  function Times(m: Mat3, n: Mat3): Mat3 { Mat3(Apply(m, n.c0), Apply(m, n.c1), Apply(m, n.c2)) }

  function Plus(m: Mat3, n: Mat3): Mat3 { Mat3(Add(m.c0, n.c0), Add(m.c1, n.c1), Add(m.c2, n.c2)) }

  function ScaleMat(m: Mat3, f: real): Mat3 { Mat3(Scale(m.c0, f), Scale(m.c1, f), Scale(m.c2, f)) }

  const IDENTITY := Mat3(Vec3(1.0, 0.0, 0.0), Vec3(0.0, 1.0, 0.0), Vec3(0.0, 0.0, 1.0))

  function Skew(w: Vec3): Mat3 {
    Mat3(Vec3(0.0, w.z, -w.y), Vec3(-w.z, 0.0, w.x), Vec3(w.y, -w.x, 0.0))
  }

  function Cross(a: Vec3, b: Vec3): Vec3 {
    Vec3(a.y * b.z - a.z * b.y, a.z * b.x - a.x * b.z, a.x * b.y - a.y * b.x)
  }

  function Rodrigues(w: Vec3, s: real, c: real): Mat3 {
    Plus(Plus(IDENTITY, ScaleMat(Skew(w), s)), ScaleMat(Times(Skew(w), Skew(w)), 1.0 - c))
  }

  // The rigid rotations: orthonormal columns forming a right-handed frame.
  ghost predicate IsRotation(m: Mat3) {
    && SquaredNorm(m.c0) == 1.0 && SquaredNorm(m.c1) == 1.0 && SquaredNorm(m.c2) == 1.0
    && Dot(m.c0, m.c1) == 0.0 && Dot(m.c1, m.c2) == 0.0 && Dot(m.c2, m.c0) == 0.0
    && Cross(m.c0, m.c1) == m.c2
  }

  // ----- What a Rodrigues matrix does to a vector -----

  function Turned(w: Vec3, s: real, c: real, x: Vec3): Vec3 {
    Add(Add(Scale(x, c), Scale(Cross(w, x), s)), Scale(Scale(w, Dot(w, x)), 1.0 - c))
  }

  lemma ApplySkew(w: Vec3, x: Vec3)
    ensures Apply(Skew(w), x) == Cross(w, x)
  {
  }

  lemma ApplyPlus(m: Mat3, n: Mat3, x: Vec3)
    ensures Apply(Plus(m, n), x) == Add(Apply(m, x), Apply(n, x))
  {
  }

  lemma ApplyAsSum(m: Mat3, x: Vec3)
    ensures Apply(m, x) == Add(Add(Scale(m.c0, x.x), Scale(m.c1, x.y)), Scale(m.c2, x.z))
  {
  }

  lemma ScaleTwice(a: Vec3, f: real, t: real)
    ensures Scale(Scale(a, f), t) == Scale(Scale(a, t), f)
  {
  }

  lemma ScaleOfSum(a: Vec3, b: Vec3, f: real)
    ensures Add(Scale(a, f), Scale(b, f)) == Scale(Add(a, b), f)
  {
  }

  lemma ApplyScaled(m: Mat3, f: real, x: Vec3)
    ensures Apply(ScaleMat(m, f), x) == Scale(Apply(m, x), f)
  {
    hide Apply, Add, Scale;
    ApplyAsSum(m, x);
    ApplyAsSum(ScaleMat(m, f), x);
    ScaleTwice(m.c0, f, x.x);
    ScaleTwice(m.c1, f, x.y);
    ScaleTwice(m.c2, f, x.z);
    var a, b, c := Scale(m.c0, x.x), Scale(m.c1, x.y), Scale(m.c2, x.z);
    ScaleOfSum(a, b, f);
    ScaleOfSum(Add(a, b), c, f);
  }

  lemma ApplyTimes(m: Mat3, n: Mat3, x: Vec3)
    ensures Apply(Times(m, n), x) == Apply(m, Apply(n, x))
  {
    ProductRow(m.c0.x, m.c1.x, m.c2.x, n, x);
    ProductRow(m.c0.y, m.c1.y, m.c2.y, n, x);
    ProductRow(m.c0.z, m.c1.z, m.c2.z, n, x);
    hide Row;
  }

  lemma ProductRow(a: real, b: real, c: real, n: Mat3, x: Vec3)
    ensures Row(Row(a, b, c, n.c0), Row(a, b, c, n.c1), Row(a, b, c, n.c2), x) == Row(a, b, c, Apply(n, x))
  {
    var y, p, q, r := Apply(n, x), Row(a, b, c, n.c0), Row(a, b, c, n.c1), Row(a, b, c, n.c2);
    assert p * x.x == a * (n.c0.x * x.x) + b * (n.c0.y * x.x) + c * (n.c0.z * x.x);
    assert q * x.y == a * (n.c1.x * x.y) + b * (n.c1.y * x.y) + c * (n.c1.z * x.y);
    assert r * x.z == a * (n.c2.x * x.z) + b * (n.c2.y * x.z) + c * (n.c2.z * x.z);
    assert a * y.x == a * (n.c0.x * x.x) + a * (n.c1.x * x.y) + a * (n.c2.x * x.z);
    assert b * y.y == b * (n.c0.y * x.x) + b * (n.c1.y * x.y) + b * (n.c2.y * x.z);
    assert c * y.z == c * (n.c0.z * x.x) + c * (n.c1.z * x.y) + c * (n.c2.z * x.z);
  }

  // The double cross product: a x (b x c) = b (a.c) - c (a.b).
  lemma DoubleCross(a: Vec3, b: Vec3, c: Vec3)
    ensures Cross(a, Cross(b, c)) == Sub(Scale(b, Dot(a, c)), Scale(c, Dot(a, b)))
  {
    DoubleCrossX(a, b, c);
    DoubleCrossY(a, b, c);
    DoubleCrossZ(a, b, c);
    hide Dot, Cross;
  }

  lemma DoubleCrossX(a: Vec3, b: Vec3, c: Vec3)
    ensures Cross(a, Cross(b, c)).x == b.x * Dot(a, c) - c.x * Dot(a, b)
  {
    var t := Cross(b, c);
    DoubleCrossComponent(a.x, a.y, a.z, b.x, b.y, b.z, c.x, c.y, c.z, t.z, t.y, Dot(a, c), Dot(a, b));
  }

  lemma DoubleCrossY(a: Vec3, b: Vec3, c: Vec3)
    ensures Cross(a, Cross(b, c)).y == b.y * Dot(a, c) - c.y * Dot(a, b)
  {
    var t := Cross(b, c);
    DoubleCrossComponent(a.y, a.z, a.x, b.y, b.z, b.x, c.y, c.z, c.x, t.x, t.z, Dot(a, c), Dot(a, b));
  }

  lemma DoubleCrossZ(a: Vec3, b: Vec3, c: Vec3)
    ensures Cross(a, Cross(b, c)).z == b.z * Dot(a, c) - c.z * Dot(a, b)
  {
    var t := Cross(b, c);
    DoubleCrossComponent(a.z, a.x, a.y, b.z, b.x, b.y, c.z, c.x, c.y, t.y, t.x, Dot(a, c), Dot(a, b));
  }

  lemma DoubleCrossComponent(a0: real, a1: real, a2: real, b0: real, b1: real, b2: real, c0: real, c1: real, c2: real,
                             t: real, u: real, ac: real, ab: real)
    requires t == b0 * c1 - b1 * c0 && u == b2 * c0 - b0 * c2
    requires ac == a0 * c0 + a1 * c1 + a2 * c2 && ab == a0 * b0 + a1 * b1 + a2 * b2
    ensures a1 * t - a2 * u == b0 * ac - c0 * ab
  {
    assert a1 * t == a1 * (b0 * c1 - b1 * c0);
    assert a2 * u == a2 * (b2 * c0 - b0 * c2);
    assert b0 * ac == b0 * (a0 * c0 + a1 * c1 + a2 * c2);
    assert c0 * ab == c0 * (a0 * b0 + a1 * b1 + a2 * b2);
  }

  lemma TripleProduct(a: Vec3, b: Vec3, c: Vec3)
    ensures Dot(Cross(a, b), c) == Dot(a, Cross(b, c))
  {
    var p, q := Cross(a, b), Cross(b, c);
    assert p.x * c.x == a.y * b.z * c.x - a.z * b.y * c.x;
    assert p.y * c.y == a.z * b.x * c.y - a.x * b.z * c.y;
    assert p.z * c.z == a.x * b.y * c.z - a.y * b.x * c.z;
    assert a.x * q.x == a.x * b.y * c.z - a.x * b.z * c.y;
    assert a.y * q.y == a.y * b.z * c.x - a.y * b.x * c.z;
    assert a.z * q.z == a.z * b.x * c.y - a.z * b.y * c.x;
  }

  lemma CrossAntisymmetric(a: Vec3, b: Vec3)
    ensures Cross(a, b) == Scale(Cross(b, a), -1.0)
  {
  }

  lemma CrossSelf(a: Vec3)
    ensures Cross(a, a) == ZERO
  {
  }

  // A Rodrigues matrix about a unit axis turns every vector as expected.
  lemma RodriguesTurns(w: Vec3, s: real, c: real, x: Vec3)
    requires SquaredNorm(w) == 1.0
    ensures Apply(Rodrigues(w, s, c), x) == Turned(w, s, c, x)
  {
    hide Apply, Cross, Dot, SquaredNorm, Skew, Plus, ScaleMat, Times, Add, Scale, Sub;
    var k := Skew(w);
    ApplyPlus(Plus(IDENTITY, ScaleMat(k, s)), ScaleMat(Times(k, k), 1.0 - c), x);
    ApplyPlus(IDENTITY, ScaleMat(k, s), x);
    ApplyScaled(k, s, x);
    ApplyScaled(Times(k, k), 1.0 - c, x);
    ApplyTimes(k, k, x);
    ApplySkew(w, x);
    ApplySkew(w, Cross(w, x));
    DoubleCross(w, w, x);
    ApplyIdentity(x);
    SquaredNormIsDot(w);
    TurnedForms(x, Cross(w, x), w, Dot(w, x), s, c);
  }

  lemma SquaredNormIsDot(w: Vec3)
    ensures SquaredNorm(w) == Dot(w, w)
  {
  }

  lemma ApplyIdentity(x: Vec3)
    ensures Apply(IDENTITY, x) == x
  {
  }

  lemma TurnedForms(x: Vec3, p: Vec3, w: Vec3, d: real, s: real, c: real)
    ensures Add(Add(x, Scale(p, s)), Scale(Sub(Scale(w, d), Scale(x, 1.0)), 1.0 - c))
            == Add(Add(Scale(x, c), Scale(p, s)), Scale(Scale(w, d), 1.0 - c))
  {
    var wd := Scale(w, d);
    TurnedComponent(x.x, wd.x, c);
    TurnedComponent(x.y, wd.y, c);
    TurnedComponent(x.z, wd.z, c);
  }

  lemma TurnedComponent(x: real, wd: real, c: real)
    ensures x + (wd - x * 1.0) * (1.0 - c) == x * c + wd * (1.0 - c)
  {
  }

  // ----- Turning preserves inner products and orientation -----

  lemma DotOfSum(a: Vec3, b: Vec3, c: Vec3)
    ensures Dot(Add(a, b), c) == Dot(a, c) + Dot(b, c)
  {
  }

  lemma DotOfScaled(a: Vec3, f: real, c: Vec3)
    ensures Dot(Scale(a, f), c) == f * Dot(a, c)
  {
    DotTerm(a.x, f, c.x);
    DotTerm(a.y, f, c.y);
    DotTerm(a.z, f, c.z);
    FactorOut(f, a.x * c.x, a.y * c.y, a.z * c.z);
  }

  lemma DotTerm(a: real, f: real, c: real)
    ensures (a * f) * c == f * (a * c)
  {
  }

  lemma DotSymmetric(a: Vec3, b: Vec3)
    ensures Dot(a, b) == Dot(b, a)
  {
  }

  // The inner product of a combination of three vectors with a fourth.
  lemma DotOfCombination(a: Vec3, p: Vec3, w: Vec3, c: real, s: real, e: real, y: Vec3)
    ensures Dot(Add(Add(Scale(a, c), Scale(p, s)), Scale(w, e)), y) == c * Dot(a, y) + s * Dot(p, y) + e * Dot(w, y)
  {
    hide Dot, Add, Scale;
    DotOfSum(Add(Scale(a, c), Scale(p, s)), Scale(w, e), y);
    DotOfSum(Scale(a, c), Scale(p, s), y);
    DotOfScaled(a, c, y);
    DotOfScaled(p, s, y);
    DotOfScaled(w, e, y);
  }

  lemma DotOfDifference(a: Vec3, b: Vec3, c: Vec3)
    ensures Dot(Sub(a, b), c) == Dot(a, c) - Dot(b, c)
  {
  }

  lemma DotZero(a: Vec3)
    ensures Dot(ZERO, a) == 0.0
  {
  }

  // The cross products with a unit axis w, as inner products.
  lemma AxisProducts(w: Vec3, a: Vec3, b: Vec3)
    requires SquaredNorm(w) == 1.0
    ensures Dot(Cross(w, a), w) == 0.0
    ensures Dot(Cross(w, b), a) == -Dot(Cross(w, a), b)
    ensures Dot(Cross(w, a), Cross(w, b)) == Dot(a, b) - Dot(w, a) * Dot(w, b)
  {
    SquaredNormIsDot(w);
    hide Dot, Cross, Scale, Sub, SquaredNorm;
    assert Dot(Cross(w, a), w) == 0.0 by {
      TripleProduct(w, w, a);
      CrossSelf(w);
      DotZero(a);
      DotSymmetric(w, Cross(w, a));
    }
    assert Dot(Cross(w, b), a) == -Dot(Cross(w, a), b) by {
      TripleProduct(w, a, b);
      TripleProduct(w, b, a);
      CrossAntisymmetric(a, b);
      DotSymmetric(w, Cross(a, b));
      DotSymmetric(w, Cross(b, a));
      DotOfScaled(Cross(b, a), -1.0, w);
    }
    var q := Cross(w, b);
    CrossAntisymmetric(w, a);
    DotOfScaled(Cross(a, w), -1.0, q);
    TripleProduct(a, w, q);
    DoubleCross(w, w, b);
    DotSymmetric(a, Cross(w, q));
    DotOfDifference(Scale(w, Dot(w, b)), Scale(b, Dot(w, w)), a);
    DotOfScaled(w, Dot(w, b), a);
    DotOfScaled(b, Dot(w, w), a);
    DotSymmetric(a, b);
  }

  lemma TurnedDot(w: Vec3, s: real, c: real, x: Vec3, y: Vec3)
    ensures Dot(Turned(w, s, c, x), y) == c * Dot(x, y) + s * Dot(Cross(w, x), y) + (1.0 - c) * (Dot(w, x) * Dot(w, y))
  {
    hide Dot, Cross, Scale, Add;
    DotOfCombination(x, Cross(w, x), Scale(w, Dot(w, x)), c, s, 1.0 - c, y);
    DotOfScaled(w, Dot(w, x), y);
  }

  lemma TurnKeepsDot(w: Vec3, s: real, c: real, a: Vec3, b: Vec3)
    requires SquaredNorm(w) == 1.0 && s * s + c * c == 1.0
    ensures Dot(Turned(w, s, c, a), Turned(w, s, c, b)) == Dot(a, b)
  {
    SquaredNormIsDot(w);
    hide Dot, Cross, Turned, SquaredNorm;
    var p, q, tb := Cross(w, a), Cross(w, b), Turned(w, s, c, b);
    TurnedDot(w, s, c, a, tb);
    DotSymmetric(a, tb);
    DotSymmetric(p, tb);
    DotSymmetric(w, tb);
    TurnedDot(w, s, c, b, a);
    TurnedDot(w, s, c, b, p);
    TurnedDot(w, s, c, b, w);
    AxisProducts(w, a, b);
    AxisProducts(w, b, a);
    DotSymmetric(a, b);
    DotSymmetric(b, w);
    DotSymmetric(b, p);
    DotSymmetric(w, p);
    DotSymmetric(p, q);
    TurnedScalars(s, c, Dot(a, b), Dot(w, a), Dot(w, b), Dot(q, a), Dot(tb, a), Dot(tb, p), Dot(tb, w));
  }

  lemma TurnedScalars(s: real, c: real, ab: real, wa: real, wb: real, t: real, ta: real, tp: real, tw: real)
    requires s * s + c * c == 1.0
    requires ta == c * ab + s * t + (1.0 - c) * (wb * wa)
    requires tp == c * (-t) + s * (ab - wa * wb)
    requires tw == wb
    ensures c * ta + s * tp + (1.0 - c) * (wa * tw) == ab
  {
    var x := wa * wb;
    assert c * ta == c * c * ab + c * s * t + c * x - c * c * x;
    assert s * tp == -(c * s * t) + s * s * ab - s * s * x;
    assert (s * s + c * c) * ab == s * s * ab + c * c * ab;
    assert (s * s + c * c) * x == s * s * x + c * c * x;
    assert (1.0 - c) * x == x - c * x;
  }

  lemma CrossOfSum(a: Vec3, b: Vec3, y: Vec3)
    ensures Cross(Add(a, b), y) == Add(Cross(a, y), Cross(b, y))
  {
  }

  lemma CrossOfScaled(a: Vec3, f: real, y: Vec3)
    ensures Cross(Scale(a, f), y) == Scale(Cross(a, y), f)
  {
    var l, c := Scale(a, f), Cross(a, y);
    ScaledMinor(a.y, y.z, a.z, y.y, f, l.y, l.z, c.x);
    ScaledMinor(a.z, y.x, a.x, y.z, f, l.z, l.x, c.y);
    ScaledMinor(a.x, y.y, a.y, y.x, f, l.x, l.y, c.z);
  }

  lemma ScaledMinor(p: real, q: real, r: real, t: real, f: real, pf: real, rf: real, d: real)
    requires pf == p * f && rf == r * f && d == p * q - r * t
    ensures pf * q - rf * t == d * f
  {
    assert pf * q == (p * q) * f && rf * t == (r * t) * f;
  }

  lemma CrossOfCombination(a: Vec3, p: Vec3, w: Vec3, c: real, s: real, e: real, y: Vec3)
    ensures Cross(Add(Add(Scale(a, c), Scale(p, s)), Scale(w, e)), y)
            == Add(Add(Scale(Cross(a, y), c), Scale(Cross(p, y), s)), Scale(Cross(w, y), e))
  {
    hide Cross, Add, Scale;
    CrossOfSum(Add(Scale(a, c), Scale(p, s)), Scale(w, e), y);
    CrossOfSum(Scale(a, c), Scale(p, s), y);
    CrossOfScaled(a, c, y);
    CrossOfScaled(p, s, y);
    CrossOfScaled(w, e, y);
  }

  lemma NegatedCombination(a: Vec3, p: Vec3, w: Vec3, c: real, s: real, e: real)
    ensures Scale(Add(Add(Scale(a, c), Scale(p, s)), Scale(w, e)), -1.0)
            == Add(Add(Scale(Scale(a, -1.0), c), Scale(Scale(p, -1.0), s)), Scale(Scale(w, -1.0), e))
  {
  }

  lemma CrossWithCombination(x: Vec3, a: Vec3, p: Vec3, w: Vec3, c: real, s: real, e: real)
    ensures Cross(x, Add(Add(Scale(a, c), Scale(p, s)), Scale(w, e)))
            == Add(Add(Scale(Cross(x, a), c), Scale(Cross(x, p), s)), Scale(Cross(x, w), e))
  {
    hide Cross, Add, Scale;
    CrossAntisymmetric(x, Add(Add(Scale(a, c), Scale(p, s)), Scale(w, e)));
    CrossOfCombination(a, p, w, c, s, e, x);
    NegatedCombination(Cross(a, x), Cross(p, x), Cross(w, x), c, s, e);
    CrossAntisymmetric(x, a);
    CrossAntisymmetric(x, p);
    CrossAntisymmetric(x, w);
  }

  // x turned, with the multiple of the axis written as one scalar.
  lemma TurnedAsCombination(w: Vec3, s: real, c: real, x: Vec3, f: real)
    requires f == (1.0 - c) * Dot(w, x)
    ensures Turned(w, s, c, x) == Add(Add(Scale(x, c), Scale(Cross(w, x), s)), Scale(w, f))
  {
    hide Dot, Cross, Scale, Add;
    ScaleMerged(w, Dot(w, x), 1.0 - c, f);
  }

  lemma ScaleMerged(w: Vec3, d: real, e: real, f: real)
    requires f == e * d
    ensures Scale(Scale(w, d), e) == Scale(w, f)
  {
    MergeFactors(w.x, d, e);
    MergeFactors(w.y, d, e);
    MergeFactors(w.z, d, e);
  }

  lemma MergeFactors(w: real, d: real, e: real)
    ensures (w * d) * e == w * (e * d)
  {
  }

  // The cross products occurring in Turned(a) x Turned(b).
  lemma AxisCrossProducts(w: Vec3, a: Vec3, b: Vec3)
    requires SquaredNorm(w) == 1.0
    ensures var n, p, q := Cross(a, b), Cross(w, a), Cross(w, b);
            && Cross(a, q) == Sub(Scale(w, Dot(a, b)), Scale(b, Dot(w, a)))
            && Cross(p, b) == Sub(Scale(a, Dot(w, b)), Scale(w, Dot(a, b)))
            && Cross(w, n) == Sub(Scale(a, Dot(w, b)), Scale(b, Dot(w, a)))
            && Cross(p, q) == Scale(w, Dot(w, n))
            && Cross(a, w) == Scale(p, -1.0)
            && Cross(p, w) == Sub(a, Scale(w, Dot(w, a)))
            && Cross(w, q) == Sub(Scale(w, Dot(w, b)), b)
            && Sub(Scale(q, Dot(w, a)), Scale(p, Dot(w, b))) == Sub(n, Scale(w, Dot(w, n)))
  {
    SquaredNormIsDot(w);
    hide Dot, Cross, Scale, Sub, SquaredNorm;
    var n, p, q := Cross(a, b), Cross(w, a), Cross(w, b);
    DotSymmetric(a, b);
    DotSymmetric(w, a);
    DotSymmetric(w, b);
    DoubleCross(a, w, b);
    DoubleCross(w, a, b);
    CrossAntisymmetric(a, w);
    CrossAntisymmetric(p, b);
    DoubleCross(b, w, a);
    NegatedDifference(Scale(w, Dot(a, b)), Scale(a, Dot(w, b)));
    CrossAntisymmetric(p, w);
    DoubleCross(w, w, a);
    ScaleByOne(a);
    NegatedDifference(Scale(w, Dot(w, a)), a);
    DoubleCross(w, w, b);
    ScaleByOne(b);
    assert Cross(p, q) == Scale(w, Dot(w, n)) by {
      DoubleCross(p, w, b);
      AxisProducts(w, a, b);
      TripleProduct(w, a, b);
      DotSymmetric(p, w);
      ScaleByZero(b);
      SubtractZero(Scale(w, Dot(p, b)));
    }
    assert Sub(Scale(q, Dot(w, a)), Scale(p, Dot(w, b))) == Sub(n, Scale(w, Dot(w, n))) by {
      DoubleCross(w, w, n);
      ScaleByOne(n);
      CrossWithDifference(w, a, b, Dot(w, b), Dot(w, a));
      NegatedDifference(Scale(p, Dot(w, b)), Scale(q, Dot(w, a)));
      NegatedDifference(Scale(w, Dot(w, n)), n);
    }
  }

  lemma NegatedDifference(a: Vec3, b: Vec3)
    ensures Scale(Sub(a, b), -1.0) == Sub(b, a)
  {
  }

  lemma ScaleByOne(a: Vec3)
    ensures Scale(a, 1.0) == a
  {
  }

  lemma ScaleByZero(a: Vec3)
    ensures Scale(a, 0.0) == ZERO
  {
  }

  lemma SubtractZero(a: Vec3)
    ensures Sub(a, ZERO) == a
  {
  }

  lemma CrossWithDifference(w: Vec3, a: Vec3, b: Vec3, f: real, g: real)
    ensures Cross(w, Sub(Scale(a, f), Scale(b, g))) == Sub(Scale(Cross(w, a), f), Scale(Cross(w, b), g))
  {
    hide Cross, Scale, Sub;
    CrossAntisymmetric(w, Sub(Scale(a, f), Scale(b, g)));
    CrossOfDifference(Scale(a, f), Scale(b, g), w);
    CrossOfScaled(a, f, w);
    CrossOfScaled(b, g, w);
    CrossAntisymmetric(w, a);
    CrossAntisymmetric(w, b);
    ScaleTwice(Cross(a, w), -1.0, f);
    ScaleTwice(Cross(b, w), -1.0, g);
    ScaledDifference(Scale(Cross(a, w), f), Scale(Cross(b, w), g), -1.0);
  }

  lemma CrossOfDifference(a: Vec3, b: Vec3, y: Vec3)
    ensures Cross(Sub(a, b), y) == Sub(Cross(a, y), Cross(b, y))
  {
  }

  lemma ScaledDifference(a: Vec3, b: Vec3, f: real)
    ensures Scale(Sub(a, b), f) == Sub(Scale(a, f), Scale(b, f))
  {
  }

  // A turn keeps the cross product, so it keeps right-handed frames right-handed.
  lemma TurnKeepsCross(w: Vec3, s: real, c: real, a: Vec3, b: Vec3)
    requires SquaredNorm(w) == 1.0 && s * s + c * c == 1.0
    ensures Cross(Turned(w, s, c, a), Turned(w, s, c, b)) == Turned(w, s, c, Cross(a, b))
  {
    hide Dot, Cross, Scale, Add, Sub, SquaredNorm, Turned;
    var n, p, q, tb, e := Cross(a, b), Cross(w, a), Cross(w, b), Turned(w, s, c, b), 1.0 - c;
    var wa, wb, wn := Dot(w, a), Dot(w, b), Dot(w, n);
    var ea, eb, en := e * wa, e * wb, e * wn;
    TurnedAsCombination(w, s, c, a, ea);
    TurnedAsCombination(w, s, c, b, eb);
    TurnedAsCombination(w, s, c, n, en);
    CrossOfCombination(a, p, w, c, s, ea, tb);
    CrossWithCombination(a, b, q, w, c, s, eb);
    CrossWithCombination(p, b, q, w, c, s, eb);
    CrossWithCombination(w, b, q, w, c, s, eb);
    CrossSelf(w);
    AxisCrossProducts(w, a, b);
    CombineTurn(a, b, w, n, p, q, Dot(a, b), wa, wb, wn, s, c, e, ea, eb, en);
  }

  // Linear combinations of one coordinate.
  function Prod(x: real, f: real): real { x * f }

  function Lin(x: real, f: real, y: real, g: real): real { x * f - y * g }

  function Mix(x: real, c: real, y: real, s: real, z: real, e: real): real { x * c + y * s + z * e }

  lemma ProdCoordinates(x: Vec3, f: real)
    ensures Scale(x, f) == Vec3(Prod(x.x, f), Prod(x.y, f), Prod(x.z, f))
  {
  }

  lemma LinCoordinates(x: Vec3, f: real, y: Vec3, g: real)
    ensures Sub(Scale(x, f), Scale(y, g)) == Vec3(Lin(x.x, f, y.x, g), Lin(x.y, f, y.y, g), Lin(x.z, f, y.z, g))
  {
  }

  lemma MixCoordinates(x: Vec3, c: real, y: Vec3, s: real, z: Vec3, e: real)
    ensures Add(Add(Scale(x, c), Scale(y, s)), Scale(z, e))
            == Vec3(Mix(x.x, c, y.x, s, z.x, e), Mix(x.y, c, y.y, s, z.y, e), Mix(x.z, c, y.z, s, z.z, e))
  {
  }

  lemma CombineTurn(a: Vec3, b: Vec3, w: Vec3, n: Vec3, p: Vec3, q: Vec3, ab: real, wa: real, wb: real, wn: real,
                    s: real, c: real, e: real, ea: real, eb: real, en: real)
    requires s * s + c * c == 1.0 && e == 1.0 - c
    requires Sub(Scale(q, wa), Scale(p, wb)) == Sub(n, Scale(w, wn))
    requires eb == e * wb && ea == e * wa && en == e * wn
    ensures var ta := Add(Add(Scale(n, c), Scale(Sub(Scale(w, ab), Scale(b, wa)), s)), Scale(Scale(p, -1.0), eb));
            var tp := Add(Add(Scale(Sub(Scale(a, wb), Scale(w, ab)), c), Scale(Scale(w, wn), s)),
                          Scale(Sub(a, Scale(w, wa)), eb));
            var tw := Add(Add(Scale(q, c), Scale(Sub(Scale(w, wb), b), s)), Scale(ZERO, eb));
            Add(Add(Scale(ta, c), Scale(tp, s)), Scale(tw, ea))
            == Add(Add(Scale(n, c), Scale(Sub(Scale(a, wb), Scale(b, wa)), s)), Scale(w, en))
  {
    hide Add, Scale, Sub, Prod, Lin, Mix;
    var u, v, g, h := Sub(Scale(w, ab), Scale(b, wa)), Sub(Scale(a, wb), Scale(w, ab)), Sub(a, Scale(w, wa)),
        Sub(Scale(w, wb), b);
    var k, m, r := Scale(w, wn), Sub(Scale(a, wb), Scale(b, wa)), Scale(p, -1.0);
    var ta := Add(Add(Scale(n, c), Scale(u, s)), Scale(r, eb));
    var tp := Add(Add(Scale(v, c), Scale(k, s)), Scale(g, eb));
    var tw := Add(Add(Scale(q, c), Scale(h, s)), Scale(ZERO, eb));
    ScaleByOne(a);
    ScaleByOne(b);
    ScaleByOne(n);
    ScaleByOne(k);
    LinCoordinates(w, ab, b, wa);
    LinCoordinates(a, wb, w, ab);
    LinCoordinates(a, 1.0, w, wa);
    LinCoordinates(w, wb, b, 1.0);
    LinCoordinates(a, wb, b, wa);
    LinCoordinates(q, wa, p, wb);
    LinCoordinates(n, 1.0, k, 1.0);
    ProdCoordinates(w, wn);
    ProdCoordinates(p, -1.0);
    MixCoordinates(n, c, u, s, r, eb);
    MixCoordinates(v, c, k, s, g, eb);
    MixCoordinates(q, c, h, s, ZERO, eb);
    MixCoordinates(ta, c, tp, s, tw, ea);
    MixCoordinates(n, c, m, s, w, en);
    var f := Factors(ab, wa, wb, wn, s, c, e, ea, eb, en);
    CombineComponent(a.x, b.x, w.x, n.x, p.x, q.x, f);
    CombineComponent(a.y, b.y, w.y, n.y, p.y, q.y, f);
    CombineComponent(a.z, b.z, w.z, n.z, p.z, q.z, f);
  }

  // The scalar factors in CombineTurn: inner products, sine and cosine, and products of them.
  datatype Factors = Factors(ab: real, wa: real, wb: real, wn: real, s: real, c: real, e: real,
                             ea: real, eb: real, en: real)
  {
    ghost predicate Valid() { s * s + c * c == 1.0 && e == 1.0 - c && eb == e * wb && ea == e * wa && en == e * wn }
  }

  // One coordinate of CombineTurn.
  lemma CombineComponent(a: real, b: real, w: real, n: real, p: real, q: real, f: Factors)
    requires f.Valid() && Lin(q, f.wa, p, f.wb) == Lin(n, 1.0, Prod(w, f.wn), 1.0)
    ensures var ta := Mix(n, f.c, Lin(w, f.ab, b, f.wa), f.s, Prod(p, -1.0), f.eb);
            var tp := Mix(Lin(a, f.wb, w, f.ab), f.c, Prod(w, f.wn), f.s, Lin(a, 1.0, w, f.wa), f.eb);
            var tw := Mix(q, f.c, Lin(w, f.wb, b, 1.0), f.s, 0.0, f.eb);
            Mix(ta, f.c, tp, f.s, tw, f.ea) == Mix(n, f.c, Lin(a, f.wb, b, f.wa), f.s, w, f.en)
  {
    hide Prod, Lin, Mix, Factors.Valid;
    var u, v, g, h := Lin(w, f.ab, b, f.wa), Lin(a, f.wb, w, f.ab), Lin(a, 1.0, w, f.wa), Lin(w, f.wb, b, 1.0);
    var k, m := Prod(w, f.wn), Lin(a, f.wb, b, f.wa);
    var ta := Mix(n, f.c, u, f.s, Prod(p, -1.0), f.eb);
    var tp, tw := Mix(v, f.c, k, f.s, g, f.eb), Mix(q, f.c, h, f.s, 0.0, f.eb);
    var pe, ge, qe, he := Prod(p, f.eb), Prod(g, f.eb), Prod(q, f.ea), Prod(h, f.ea);
    PolarPart(q, p, n, k, f);
    SidePart(a, b, w, f);
    FirstRow(n, u, p, f.s, f.c, f.eb, ta, pe);
    SecondRow(v, k, g, f.s, f.c, f.eb, tp, ge);
    ThirdRow(q, h, f.s, f.c, f.ea, f.eb, tw, qe, he);
    MixTerms(ta, f.c, tp, f.s, tw, f.ea);
    MixTerms(n, f.c, m, f.s, w, f.en);
    CombineScalars(n, m, k, f.s, f.c, f.e, u, v, pe, qe, ge, he,
                   Prod(ta, f.c), Prod(tp, f.s), Prod(tw, f.ea), Prod(w, f.en));
  }

  lemma PolarPart(q: real, p: real, n: real, k: real, f: Factors)
    requires f.Valid() && Lin(q, f.wa, p, f.wb) == Lin(n, 1.0, k, 1.0)
    ensures Prod(q, f.ea) - Prod(p, f.eb) == f.e * (n - k)
    ensures f.s * f.s + f.c * f.c == 1.0 && f.e == 1.0 - f.c
  {
    PolarTerms(p, q, n - k, f.wa, f.wb, f.e, f.ea, f.eb);
  }

  lemma SidePart(a: real, b: real, w: real, f: Factors)
    requires f.Valid()
    ensures Prod(Lin(a, 1.0, w, f.wa), f.eb) + Prod(Lin(w, f.wb, b, 1.0), f.ea) == f.e * Lin(a, f.wb, b, f.wa)
    ensures Lin(w, f.ab, b, f.wa) + Lin(a, f.wb, w, f.ab) == Lin(a, f.wb, b, f.wa)
    ensures Prod(w, f.en) == f.e * Prod(w, f.wn)
  {
    var g, h, m := Lin(a, 1.0, w, f.wa), Lin(w, f.wb, b, 1.0), Lin(a, f.wb, b, f.wa);
    SideTerms(a, b, w, f.wa, f.wb, f.e, f.eb, f.ea, g, h, m);
    MergeFactors(w, f.wn, f.e);
  }

  lemma MixTerms(x: real, c: real, y: real, s: real, z: real, e: real)
    ensures Mix(x, c, y, s, z, e) == Prod(x, c) + Prod(y, s) + Prod(z, e)
  {
  }

  lemma FirstRow(n: real, u: real, p: real, s: real, c: real, eb: real, ta: real, pe: real)
    requires ta == Mix(n, c, u, s, Prod(p, -1.0), eb) && pe == Prod(p, eb)
    ensures Prod(ta, c) == Prod(Prod(n, c) + Prod(u, s) - pe, c)
  {
  }

  lemma SecondRow(v: real, k: real, g: real, s: real, c: real, eb: real, tp: real, ge: real)
    requires tp == Mix(v, c, k, s, g, eb) && ge == Prod(g, eb)
    ensures Prod(tp, s) == Prod(Prod(v, c) + Prod(k, s) + ge, s)
  {
  }

  lemma ThirdRow(q: real, h: real, s: real, c: real, ea: real, eb: real, tw: real, qe: real, he: real)
    requires tw == Mix(q, c, h, s, 0.0, eb) && qe == Prod(q, ea) && he == Prod(h, ea)
    ensures Prod(tw, ea) == Prod(qe, c) + Prod(he, s)
  {
    assert tw == q * c + h * s;
    assert tw * ea == (q * c) * ea + (h * s) * ea;
    MergeFactors(q, c, ea);
    MergeFactors(h, s, ea);
    MergeFactors(q, ea, c);
    MergeFactors(h, ea, s);
  }

  lemma PolarTerms(p: real, q: real, d: real, wa: real, wb: real, e: real, ea: real, eb: real)
    requires eb == e * wb && ea == e * wa && q * wa - p * wb == d
    ensures q * ea - p * eb == e * d
  {
    assert q * ea == e * (q * wa) && p * eb == e * (p * wb);
  }

  lemma SideTerms(a: real, b: real, w: real, wa: real, wb: real, e: real, eb: real, ea: real, g: real, h: real, m: real)
    requires eb == e * wb && ea == e * wa && g == a - w * wa && h == w * wb - b && m == a * wb - b * wa
    ensures g * eb + h * ea == e * m
  {
    assert g * eb == e * (a * wb) - e * (w * wa * wb) by { assert g * eb == a * eb - w * wa * eb; }
    assert h * ea == e * (w * wb * wa) - e * (b * wa) by { assert h * ea == w * wb * ea - b * ea; }
    assert e * m == e * (a * wb) - e * (b * wa);
  }

  lemma CombineScalars(n: real, m: real, k: real, s: real, c: real, e: real, u: real, v: real,
                       pe: real, qe: real, ge: real, he: real, x: real, y: real, z: real, t: real)
    requires x == Prod(Prod(n, c) + Prod(u, s) - pe, c) && y == Prod(Prod(v, c) + Prod(k, s) + ge, s)
    requires z == Prod(qe, c) + Prod(he, s) && t == e * k
    requires s * s + c * c == 1.0 && e == 1.0 - c && u + v == m && qe - pe == e * (n - k) && ge + he == e * m
    ensures x + y + z == Prod(n, c) + Prod(m, s) + t
  {
    assert x == n * c * c + u * s * c - pe * c && y == v * c * s + k * s * s + ge * s && z == qe * c + he * s;
    assert u * s * c + v * c * s == m * s * c;
    assert qe * c - pe * c == (e * (n - k)) * c;
    assert ge * s + he * s == (e * m) * s;
    assert e * (n - k) * c == (n - k) * c - (n - k) * (c * c);
    assert e * m * s == m * s - m * s * c;
    assert (n - k) * (c * c) == n * c * c - k * (c * c);
    assert (n - k) * c == n * c - k * c;
    assert k * (s * s) + k * (c * c) == k * (s * s + c * c);
  }

  // ----- Rotations form a closed set under the update -----

  lemma RotatedFrame(w: Vec3, s: real, c: real, m: Mat3)
    requires SquaredNorm(w) == 1.0 && s * s + c * c == 1.0 && IsRotation(m)
    ensures IsRotation(Times(Rodrigues(w, s, c), m))
  {
    hide Dot, Cross, SquaredNorm, Rodrigues, Turned, Apply;
    RodriguesTurns(w, s, c, m.c0);
    RodriguesTurns(w, s, c, m.c1);
    RodriguesTurns(w, s, c, m.c2);
    SquaredNormIsDot(m.c0);
    SquaredNormIsDot(m.c1);
    SquaredNormIsDot(m.c2);
    var r := Times(Rodrigues(w, s, c), m);
    SquaredNormIsDot(r.c0);
    SquaredNormIsDot(r.c1);
    SquaredNormIsDot(r.c2);
    TurnKeepsDot(w, s, c, m.c0, m.c0);
    TurnKeepsDot(w, s, c, m.c1, m.c1);
    TurnKeepsDot(w, s, c, m.c2, m.c2);
    TurnKeepsDot(w, s, c, m.c0, m.c1);
    TurnKeepsDot(w, s, c, m.c1, m.c2);
    TurnKeepsDot(w, s, c, m.c2, m.c0);
    TurnKeepsCross(w, s, c, m.c0, m.c1);
  }
}
