/** Mass, centre of mass and inertia of two rigid bodies combined: libfranka/src/load_calculations.cpp. */
module LoadCombination {
  import opened Reals
  import opened VectorLimiter
  import opened Rotations

  // Mass, centre of mass and inertia tensor about that centre.
  datatype Body = Body(mass: real, center: Vec3, inertia: Mat3)

  const NOTHING := Mat3(ZERO, ZERO, ZERO)

  function Minus(m: Mat3, n: Mat3): Mat3 { Mat3(Sub(m.c0, n.c0), Sub(m.c1, n.c1), Sub(m.c2, n.c2)) }

  function Weighted(m1: real, x: real, m2: real, y: real): real
    requires m1 + m2 != 0.0
  {
    (m1 * x + m2 * y) / (m1 + m2)
  }

  function CombineCenterOfMass(m1: real, c1: Vec3, m2: real, c2: Vec3): Vec3 {
    if m1 + m2 > 0.0
    then Vec3(Weighted(m1, c1.x, m2, c2.x), Weighted(m1, c1.y, m2, c2.y), Weighted(m1, c1.z, m2, c2.z))
    else ZERO
  }

  // S(c)^2 for the skew-symmetric matrix of c.
  function SkewSquared(c: Vec3): Mat3 { Times(Skew(c), Skew(c)) }

  function CombineInertiaTensor(m1: real, c1: Vec3, i1: Mat3, m2: real, c2: Vec3, i2: Mat3, total: real,
                                center: Vec3): Mat3 {
    if total == 0.0 then NOTHING
    else
      var j1 := Minus(if m1 == 0.0 then NOTHING else i1, ScaleMat(SkewSquared(c1), m1));
      var j2 := Minus(if m2 == 0.0 then NOTHING else i2, ScaleMat(SkewSquared(c2), m2));
      Plus(Plus(j1, j2), ScaleMat(SkewSquared(center), total))
  }

  // End effector and load as convertRobotState combines them.
  function Combine(a: Body, b: Body): Body {
    var mass := a.mass + b.mass;
    var center := CombineCenterOfMass(a.mass, a.center, b.mass, b.center);
    Body(mass, center, CombineInertiaTensor(a.mass, a.center, a.inertia, b.mass, b.center, b.inertia, mass, center))
  }

  // The loop that fills the centre of mass.
  method FillCenterOfMass(m1: real, c1: array<real>, m2: real, c2: array<real>) returns (center: array<real>)
    requires c1.Length == c2.Length == 3
    ensures fresh(center) && center.Length == 3
    ensures Vec3(center[0], center[1], center[2])
            == CombineCenterOfMass(m1, Vec3(c1[0], c1[1], c1[2]), m2, Vec3(c2[0], c2[1], c2[2]))
  {
    hide Weighted;
    center := new real[3](_ => 0.0);
    if m1 + m2 > 0.0 {
      for i := 0 to 3
        invariant forall k :: 0 <= k < i ==> center[k] == Weighted(m1, c1[k], m2, c2[k])
        modifies center
      {
        center[i] := Weighted(m1, c1[i], m2, c2[i]);
      }
    }
  }

  // ----- Moments: what adds up when bodies are joined -----

  // Mass, mass times centre, and inertia about the flange.
  datatype Moments = Moments(mass: real, first: Vec3, second: Mat3)

  const NO_MOMENTS := Moments(0.0, ZERO, NOTHING)

  function MomentsOf(b: Body): Moments {
    Moments(b.mass, Scale(b.center, b.mass),
            Minus(if b.mass == 0.0 then NOTHING else b.inertia, ScaleMat(SkewSquared(b.center), b.mass)))
  }

  function AddMoments(p: Moments, q: Moments): Moments {
    Moments(p.mass + q.mass, Add(p.first, q.first), Plus(p.second, q.second))
  }

  // The body with given moments; without mass it has no centre and no inertia.
  function BodyOf(p: Moments): Body {
    if p.mass > 0.0 then
      var center := Over(p.first, p.mass);
      Body(p.mass, center, Plus(p.second, ScaleMat(SkewSquared(center), p.mass)))
    else Body(p.mass, ZERO, NOTHING)
  }

  lemma WeightedSum(m1: real, x: real, m2: real, y: real)
    requires m1 + m2 != 0.0
    ensures Weighted(m1, x, m2, y) == (x * m1 + y * m2) / (m1 + m2)
  {
  }

  lemma CenterOfSum(m1: real, c1: Vec3, m2: real, c2: Vec3)
    requires m1 + m2 > 0.0
    ensures CombineCenterOfMass(m1, c1, m2, c2) == Over(Add(Scale(c1, m1), Scale(c2, m2)), m1 + m2)
  {
    WeightedSum(m1, c1.x, m2, c2.x);
    WeightedSum(m1, c1.y, m2, c2.y);
    WeightedSum(m1, c1.z, m2, c2.z);
    hide Weighted;
  }

  // Combining is adding moments.
  lemma CombineAddsMoments(a: Body, b: Body)
    requires a.mass >= 0.0 && b.mass >= 0.0
    ensures Combine(a, b) == BodyOf(AddMoments(MomentsOf(a), MomentsOf(b)))
  {
    hide SkewSquared, ScaleMat, Minus, Plus, Scale, Over, Add, Weighted;
    if a.mass + b.mass > 0.0 {
      CenterOfSum(a.mass, a.center, b.mass, b.center);
    }
  }

  lemma RestoredVector(v: Vec3, m: real)
    requires m != 0.0
    ensures Scale(Over(v, m), m) == v && Over(Scale(v, m), m) == v
  {
    RestoredReal(v.x, m);
    RestoredReal(v.y, m);
    RestoredReal(v.z, m);
  }

  lemma RestoredReal(x: real, m: real)
    requires m != 0.0
    ensures x / m * m == x && x * m / m == x
  {
  }

  lemma CancelledMatrix(m: Mat3, n: Mat3)
    ensures Minus(Plus(m, n), n) == m && Plus(Minus(m, n), n) == m
  {
  }

  lemma ScaledByNothing(m: Mat3)
    ensures ScaleMat(m, 0.0) == NOTHING && Minus(NOTHING, NOTHING) == NOTHING
  {
  }

  // Moments determine the body and back, as soon as there is mass.
  lemma MomentsOfBodyOf(p: Moments)
    requires p.mass > 0.0 || p == NO_MOMENTS
    ensures MomentsOf(BodyOf(p)) == p
  {
    hide SkewSquared, Scale, Over, Minus, Plus, ScaleMat;
    if p.mass > 0.0 {
      RestoredVector(p.first, p.mass);
      CancelledMatrix(p.second, ScaleMat(SkewSquared(Over(p.first, p.mass)), p.mass));
    } else {
      ScaledByNothing(SkewSquared(ZERO));
      ScaleByZero(ZERO);
    }
  }

  lemma BodyOfMomentsOf(b: Body)
    requires b.mass > 0.0
    ensures BodyOf(MomentsOf(b)) == b
  {
    hide SkewSquared, Scale, Over, Minus, Plus, ScaleMat;
    RestoredVector(b.center, b.mass);
    CancelledMatrix(b.inertia, ScaleMat(SkewSquared(b.center), b.mass));
  }

  lemma MasslessMoments(b: Body)
    requires b.mass == 0.0
    ensures MomentsOf(b) == NO_MOMENTS
  {
    hide SkewSquared, Scale, Minus, ScaleMat;
    ScaledByNothing(SkewSquared(b.center));
    ScaleByZero(b.center);
  }

  lemma CombinedMoments(a: Body, b: Body)
    requires a.mass >= 0.0 && b.mass >= 0.0
    ensures MomentsOf(Combine(a, b)) == AddMoments(MomentsOf(a), MomentsOf(b))
  {
    hide MomentsOf, BodyOf, Combine, AddMoments;
    CombineAddsMoments(a, b);
    MassOfMoments(a);
    MassOfMoments(b);
    var p, q := MomentsOf(a), MomentsOf(b);
    SumIsMoments(p, q);
    if a.mass + b.mass == 0.0 {
      MasslessMoments(a);
      MasslessMoments(b);
    }
    MomentsOfBodyOf(AddMoments(p, q));
  }

  lemma SumIsMoments(p: Moments, q: Moments)
    ensures AddMoments(p, q).mass == p.mass + q.mass
    ensures p == NO_MOMENTS && q == NO_MOMENTS ==> AddMoments(p, q) == NO_MOMENTS
    ensures q == NO_MOMENTS ==> AddMoments(p, q) == p
    ensures AddMoments(p, q) == AddMoments(q, p)
  {
  }

  lemma SumAssociates(p: Moments, q: Moments, r: Moments)
    ensures AddMoments(AddMoments(p, q), r) == AddMoments(p, AddMoments(q, r))
  {
  }

  lemma MassOfMoments(b: Body)
    ensures MomentsOf(b).mass == b.mass
  {
  }

  lemma MassOfCombined(a: Body, b: Body)
    ensures Combine(a, b).mass == a.mass + b.mass
  {
  }

  // ----- The laws of combination, for all bodies of non-negative mass -----

  lemma CombineCommutes(a: Body, b: Body)
    requires a.mass >= 0.0 && b.mass >= 0.0
    ensures Combine(a, b) == Combine(b, a)
  {
    hide Combine, MomentsOf, BodyOf;
    CombineAddsMoments(a, b);
    CombineAddsMoments(b, a);
    SumIsMoments(MomentsOf(a), MomentsOf(b));
  }

  lemma CombineAssociates(a: Body, b: Body, c: Body)
    requires a.mass >= 0.0 && b.mass >= 0.0 && c.mass >= 0.0
    ensures Combine(Combine(a, b), c) == Combine(a, Combine(b, c))
  {
    hide Combine, MomentsOf, BodyOf, AddMoments;
    MassOfCombined(a, b);
    MassOfCombined(b, c);
    CombineAddsMoments(Combine(a, b), c);
    CombineAddsMoments(a, Combine(b, c));
    CombinedMoments(a, b);
    CombinedMoments(b, c);
    SumAssociates(MomentsOf(a), MomentsOf(b), MomentsOf(c));
  }

  // A body without mass is neutral, whatever its centre and inertia are said to be.
  lemma MasslessIsNeutral(a: Body, b: Body)
    requires a.mass > 0.0 && b.mass == 0.0
    ensures Combine(a, b) == a && Combine(b, a) == a
  {
    hide Combine, MomentsOf, BodyOf;
    CombineAddsMoments(a, b);
    CombineCommutes(a, b);
    MasslessMoments(b);
    BodyOfMomentsOf(a);
    SumIsMoments(MomentsOf(a), NO_MOMENTS);
  }

  // ----- Combining many bodies, in any order -----

  function CombineAll(bodies: seq<Body>): Body
    requires bodies != []
  {
    if |bodies| == 1 then bodies[0] else Combine(CombineAll(bodies[..|bodies| - 1]), bodies[|bodies| - 1])
  }

  function SumMoments(bodies: seq<Body>): Moments {
    if bodies == [] then NO_MOMENTS else AddMoments(SumMoments(bodies[..|bodies| - 1]), MomentsOf(bodies[|bodies| - 1]))
  }

  ghost predicate AllMassive(bodies: seq<Body>) { forall b :: b in bodies ==> b.mass > 0.0 }

  lemma {:induction false} CombineAllSums(bodies: seq<Body>)
    requires bodies != [] && AllMassive(bodies)
    ensures CombineAll(bodies).mass > 0.0 && CombineAll(bodies) == BodyOf(SumMoments(bodies))
            && SumMoments(bodies).mass > 0.0
  {
    var n := |bodies| - 1;
    var last := bodies[n];
    MassOfMoments(last);
    if n == 0 {
      BodyOfMomentsOf(last);
      hide MomentsOf;
      assert SumMoments(bodies[..0]) == NO_MOMENTS;
      assert AddMoments(NO_MOMENTS, MomentsOf(last)) == MomentsOf(last);
    } else {
      CombineAllSums(bodies[..n]);
      var first := CombineAll(bodies[..n]);
      assert Combine(first, last).mass > 0.0;
      hide MomentsOf, BodyOf, Combine;
      CombineAddsMoments(first, last);
      MomentsOfBodyOf(SumMoments(bodies[..n]));
    }
  }

  // Removing one body from anywhere removes its moments from the sum.
  lemma {:induction false} SumWithout(bodies: seq<Body>, i: nat)
    requires i < |bodies|
    ensures SumMoments(bodies) == AddMoments(SumMoments(bodies[..i] + bodies[i + 1..]), MomentsOf(bodies[i]))
  {
    hide MomentsOf;
    var n := |bodies| - 1;
    var rest := bodies[..i] + bodies[i + 1..];
    if i == n {
      assert rest == bodies[..n];
    } else {
      SumWithout(bodies[..n], i);
      assert bodies[..n][..i] + bodies[..n][i + 1..] == rest[..|rest| - 1];
      assert rest[|rest| - 1] == bodies[n];
      var s, p, q := SumMoments(rest[..|rest| - 1]), MomentsOf(bodies[i]), MomentsOf(bodies[n]);
      assert AddMoments(AddMoments(s, p), q) == AddMoments(AddMoments(s, q), p);
    }
  }

  lemma {:induction false} SumOfPermutation(s: seq<Body>, t: seq<Body>)
    requires multiset(s) == multiset(t)
    ensures SumMoments(s) == SumMoments(t)
    decreases |s|
  {
    hide MomentsOf, AddMoments;
    if s == [] {
      assert |multiset(t)| == |t| == 0;
    } else {
      var n := |s| - 1;
      var last := s[n];
      assert last in multiset(t);
      var i :| 0 <= i < |t| && t[i] == last;
      var rest := t[..i] + t[i + 1..];
      assert s == s[..n] + [last];
      assert t == t[..i] + [last] + t[i + 1..];
      assert multiset(s) == multiset(s[..n]) + multiset{last};
      assert multiset(t) == multiset(t[..i]) + multiset{last} + multiset(t[i + 1..]);
      assert multiset(rest) == multiset(t[..i]) + multiset(t[i + 1..]);
      CancelElement(multiset(s[..n]), multiset(rest), last);
      SumOfPermutation(s[..n], rest);
      SumWithout(t, i);
    }
  }

  lemma CancelElement(m: multiset<Body>, n: multiset<Body>, b: Body)
    requires m + multiset{b} == n + multiset{b}
    ensures m == n
  {
    assert m == m + multiset{b} - multiset{b};
    assert n == n + multiset{b} - multiset{b};
  }

  // Any number of bodies combine to the same mass, centre and inertia in every order.
  lemma OrderDoesNotMatter(s: seq<Body>, t: seq<Body>)
    requires s != [] && AllMassive(s) && multiset(s) == multiset(t)
    ensures t != [] && CombineAll(s) == CombineAll(t)
  {
    assert |multiset(s)| == |s| && |multiset(t)| == |t|;
    forall b | b in t ensures b.mass > 0.0 {
      assert b in multiset(t);
      assert b in s;
    }
    CombineAllSums(s);
    CombineAllSums(t);
    SumOfPermutation(s, t);
  }

  // ----- The parallel axis theorem, symmetry and positive semidefiniteness -----

  // |c|^2 - c*c^T, the inertia of a unit mass at c.
  function PointInertia(c: Vec3): Mat3 {
    var p, q, r := c.x * c.x, c.y * c.y, c.z * c.z;
    Mat3(Vec3(q + r, -(c.y * c.x), -(c.z * c.x)), Vec3(-(c.x * c.y), p + r, -(c.z * c.y)),
         Vec3(-(c.x * c.z), -(c.y * c.z), p + q))
  }

  lemma SkewSquaredIsPointInertia(c: Vec3)
    ensures SkewSquared(c) == ScaleMat(PointInertia(c), -1.0)
  {
    ApplySkew(c, Skew(c).c0);
    ApplySkew(c, Skew(c).c1);
    ApplySkew(c, Skew(c).c2);
    hide Apply;
  }

  // A weighted product of two coordinates.
  function Product(x: real, y: real, m: real): real { (x * y) * m }

  // The mixed term of the combined centre: what is left of the sum is that of the
  // difference, times the reduced mass.
  lemma ReducedProduct(m1: real, m2: real, x1: real, y1: real, x2: real, y2: real, X: real, Y: real, M: real, mu: real)
    requires M == m1 + m2 && M > 0.0 && M * X == m1 * x1 + m2 * x2 && M * Y == m1 * y1 + m2 * y2 && M * mu == m1 * m2
    ensures Product(x1, y1, m1) + Product(x2, y2, m2) - Product(X, Y, M) == Product(x1 - x2, y1 - y2, mu)
  {
    var a, b, s, t, P, Q, k := x1 * y1, x2 * y2, x1 * y2, x2 * y1, m1 * x1 + m2 * x2, m1 * y1 + m2 * y2, m1 * m2;
    var lhs, rhs := a * m1 + b * m2 - (X * Y) * M, ((x1 - x2) * (y1 - y2)) * mu;
    assert M * ((X * Y) * M) == a * (m1 * m1) + b * (m2 * m2) + (s + t) * k by {
      SquareOfTotal(M, X, Y, P, Q);
      ProductOfSums(m1, m2, x1, y1, x2, y2, a, b, s, t);
    }
    assert M * (a * m1 + b * m2) == a * (m1 * m1) + b * (m2 * m2) + (a + b) * k by { TimesTotal(m1, m2, M, a, b, k); }
    assert M * rhs == (a + b - (s + t)) * k by { ReducedRight(M, mu, k, x1, y1, x2, y2, a, b, s, t); }
    ReducedDifference(M, a * m1 + b * m2, (X * Y) * M, lhs, rhs, a * (m1 * m1) + b * (m2 * m2), a + b, s + t, k);
  }

  lemma ReducedDifference(M: real, e: real, z: real, lhs: real, rhs: real, c: real, f: real, g: real, k: real)
    requires M > 0.0 && lhs == e - z && M * e == c + f * k && M * z == c + g * k && M * rhs == (f - g) * k
    ensures lhs == rhs
  {
    assert M * lhs == M * e - M * z;
    assert (f - g) * k == f * k - g * k;
    CancelEqual(M, lhs, rhs);
  }

  lemma TimesTotal(m1: real, m2: real, M: real, a: real, b: real, k: real)
    requires M == m1 + m2 && k == m1 * m2
    ensures M * (a * m1 + b * m2) == a * (m1 * m1) + b * (m2 * m2) + (a + b) * k
  {
    assert (m1 + m2) * (a * m1) == a * (m1 * m1) + a * (m1 * m2);
    assert (m1 + m2) * (b * m2) == b * (m2 * m2) + b * (m1 * m2);
  }

  lemma SquareOfTotal(M: real, X: real, Y: real, P: real, Q: real)
    requires M * X == P && M * Y == Q
    ensures M * ((X * Y) * M) == P * Q
  {
    assert (M * X) * (M * Y) == M * ((X * Y) * M);
  }

  lemma ReducedRight(M: real, mu: real, k: real, x1: real, y1: real, x2: real, y2: real, a: real, b: real, s: real,
                     t: real)
    requires M * mu == k && a == x1 * y1 && b == x2 * y2 && s == x1 * y2 && t == x2 * y1
    ensures M * (((x1 - x2) * (y1 - y2)) * mu) == (a + b - s - t) * k
  {
    var d := (x1 - x2) * (y1 - y2);
    assert d == a + b - s - t;
    assert M * (d * mu) == d * (M * mu);
  }

  lemma ProductOfSums(m1: real, m2: real, x1: real, y1: real, x2: real, y2: real, a: real, b: real, s: real, t: real)
    requires a == x1 * y1 && b == x2 * y2 && s == x1 * y2 && t == x2 * y1
    ensures (m1 * x1 + m2 * x2) * (m1 * y1 + m2 * y2) == a * (m1 * m1) + b * (m2 * m2) + (s + t) * (m1 * m2)
  {
    var p, q, u, v := m1 * x1, m2 * x2, m1 * y1, m2 * y2;
    assert p * u == a * (m1 * m1) && q * v == b * (m2 * m2) && p * v == s * (m1 * m2) && q * u == t * (m1 * m2);
  }

  lemma PointInertiaEntries(c: Vec3, m: real)
    ensures ScaleMat(PointInertia(c), m)
            == Mat3(Vec3(Product(c.y, c.y, m) + Product(c.z, c.z, m), -Product(c.y, c.x, m), -Product(c.z, c.x, m)),
                    Vec3(-Product(c.x, c.y, m), Product(c.x, c.x, m) + Product(c.z, c.z, m), -Product(c.z, c.y, m)),
                    Vec3(-Product(c.x, c.z, m), -Product(c.y, c.z, m), Product(c.x, c.x, m) + Product(c.y, c.y, m)))
  {
    FirstColumn(c, m);
    SecondColumn(c, m);
    ThirdColumn(c, m);
    hide Product, Scale, PointInertia;
  }

  lemma FirstColumn(c: Vec3, m: real)
    ensures Scale(PointInertia(c).c0, m)
            == Vec3(Product(c.y, c.y, m) + Product(c.z, c.z, m), -Product(c.y, c.x, m), -Product(c.z, c.x, m))
  {
    EntryTerms(c.y, c.z, m);
    EntryTerms(c.y, c.x, m);
    EntryTerms(c.z, c.x, m);
    hide Product;
  }

  lemma SecondColumn(c: Vec3, m: real)
    ensures Scale(PointInertia(c).c1, m)
            == Vec3(-Product(c.x, c.y, m), Product(c.x, c.x, m) + Product(c.z, c.z, m), -Product(c.z, c.y, m))
  {
    EntryTerms(c.x, c.y, m);
    EntryTerms(c.x, c.z, m);
    EntryTerms(c.z, c.y, m);
    hide Product;
  }

  lemma ThirdColumn(c: Vec3, m: real)
    ensures Scale(PointInertia(c).c2, m)
            == Vec3(-Product(c.x, c.z, m), -Product(c.y, c.z, m), Product(c.x, c.x, m) + Product(c.y, c.y, m))
  {
    EntryTerms(c.x, c.z, m);
    EntryTerms(c.y, c.z, m);
    EntryTerms(c.x, c.y, m);
    hide Product;
  }

  lemma EntryTerms(x: real, y: real, m: real)
    ensures -(x * y) * m == -Product(x, y, m) && (x * x + y * y) * m == Product(x, x, m) + Product(y, y, m)
  {
  }

  lemma NegatedScale(m: Mat3, f: real)
    ensures ScaleMat(ScaleMat(m, -1.0), f) == Minus(NOTHING, ScaleMat(m, f))
  {
    NegatedColumn(m.c0, f);
    NegatedColumn(m.c1, f);
    NegatedColumn(m.c2, f);
    hide Scale, Sub;
  }

  lemma NegatedColumn(c: Vec3, f: real)
    ensures Scale(Scale(c, -1.0), f) == Sub(ZERO, Scale(c, f))
  {
  }

  ghost predicate ReducedMass(m1: real, m2: real, M: real, mu: real) { M == m1 + m2 && M > 0.0 && M * mu == m1 * m2 }

  // X is the centre of the masses m1 at x1 and m2 at x2.
  ghost predicate Balanced(m1: real, x1: real, m2: real, x2: real, M: real, X: real) { M * X == m1 * x1 + m2 * x2 }

  lemma ReducedEntry(m1: real, m2: real, x1: real, y1: real, x2: real, y2: real, X: real, Y: real, M: real, mu: real)
    requires ReducedMass(m1, m2, M, mu) && Balanced(m1, x1, m2, x2, M, X) && Balanced(m1, y1, m2, y2, M, Y)
    ensures Product(x1, y1, m1) + Product(x2, y2, m2) - Product(X, Y, M) == Product(x1 - x2, y1 - y2, mu)
    ensures Product(y1, x1, m1) + Product(y2, x2, m2) - Product(Y, X, M) == Product(y1 - y2, x1 - x2, mu)
  {
    hide Product;
    ReducedProduct(m1, m2, x1, y1, x2, y2, X, Y, M, mu);
    ReducedProduct(m1, m2, y1, x1, y2, x2, Y, X, M, mu);
  }

  // The point masses about their common centre.
  lemma SpreadOfPair(m1: real, c1: Vec3, m2: real, c2: Vec3, c: Vec3, M: real, mu: real)
    requires M == m1 + m2 && M > 0.0 && M * mu == m1 * m2
    requires M * c.x == m1 * c1.x + m2 * c2.x && M * c.y == m1 * c1.y + m2 * c2.y && M * c.z == m1 * c1.z + m2 * c2.z
    ensures Minus(Plus(ScaleMat(PointInertia(c1), m1), ScaleMat(PointInertia(c2), m2)), ScaleMat(PointInertia(c), M))
            == ScaleMat(PointInertia(Sub(c1, c2)), mu)
  {
    assert Balanced(m1, c1.x, m2, c2.x, M, c.x) && Balanced(m1, c1.y, m2, c2.y, M, c.y);
    assert Balanced(m1, c1.z, m2, c2.z, M, c.z) && ReducedMass(m1, m2, M, mu);
    SpreadAboutCentre(m1, c1, m2, c2, c, M, mu);
  }

  lemma SpreadAboutCentre(m1: real, c1: Vec3, m2: real, c2: Vec3, c: Vec3, M: real, mu: real)
    requires ReducedMass(m1, m2, M, mu) && Balanced(m1, c1.x, m2, c2.x, M, c.x)
    requires Balanced(m1, c1.y, m2, c2.y, M, c.y) && Balanced(m1, c1.z, m2, c2.z, M, c.z)
    ensures Minus(Plus(ScaleMat(PointInertia(c1), m1), ScaleMat(PointInertia(c2), m2)), ScaleMat(PointInertia(c), M))
            == ScaleMat(PointInertia(Sub(c1, c2)), mu)
  {
    hide Product, PointInertia, ScaleMat, ReducedMass, Balanced;
    PointInertiaEntries(c1, m1);
    PointInertiaEntries(c2, m2);
    PointInertiaEntries(c, M);
    PointInertiaEntries(Sub(c1, c2), mu);
    ReducedEntry(m1, m2, c1.x, c1.x, c2.x, c2.x, c.x, c.x, M, mu);
    ReducedEntry(m1, m2, c1.y, c1.y, c2.y, c2.y, c.y, c.y, M, mu);
    ReducedEntry(m1, m2, c1.z, c1.z, c2.z, c2.z, c.z, c.z, M, mu);
    ReducedEntry(m1, m2, c1.x, c1.y, c2.x, c2.y, c.x, c.y, M, mu);
    ReducedEntry(m1, m2, c1.x, c1.z, c2.x, c2.z, c.x, c.z, M, mu);
    ReducedEntry(m1, m2, c1.y, c1.z, c2.y, c2.z, c.y, c.z, M, mu);
  }

  // The parallel axis theorem: the combined inertia is the sum of both, and that
  // of the reduced mass at the distance of the two centres.
  lemma ParallelAxes(a: Body, b: Body)
    requires a.mass > 0.0 && b.mass > 0.0
    ensures var mu := a.mass * b.mass / (a.mass + b.mass);
            Combine(a, b).inertia == Plus(Plus(a.inertia, b.inertia),
                                          ScaleMat(PointInertia(Sub(a.center, b.center)), mu))
  {
    hide SkewSquared, PointInertia, ScaleMat, Combine, Plus, Minus;
    var m1, m2, c1, c2, c, M := a.mass, b.mass, a.center, b.center, Combine(a, b).center, a.mass + b.mass;
    var mu := m1 * m2 / M;
    CombinedForm(a, b, mu);
    SpreadOfPair(m1, c1, m2, c2, c, M, mu);
    SkewSquaredIsPointInertia(c1);
    SkewSquaredIsPointInertia(c2);
    SkewSquaredIsPointInertia(c);
    NegatedScale(PointInertia(c1), m1);
    NegatedScale(PointInertia(c2), m2);
    NegatedScale(PointInertia(c), M);
    Rearranged(a.inertia, b.inertia, ScaleMat(PointInertia(c1), m1), ScaleMat(PointInertia(c2), m2),
               ScaleMat(PointInertia(c), M));
  }

  // The combination of two massive bodies without its case distinctions.
  lemma CombinedForm(a: Body, b: Body, mu: real)
    requires a.mass > 0.0 && b.mass > 0.0 && mu == a.mass * b.mass / (a.mass + b.mass)
    ensures var c, M := Combine(a, b).center, a.mass + b.mass;
            && M * mu == a.mass * b.mass
            && M * c.x == a.mass * a.center.x + b.mass * b.center.x
            && M * c.y == a.mass * a.center.y + b.mass * b.center.y
            && M * c.z == a.mass * a.center.z + b.mass * b.center.z
            && Combine(a, b).inertia
               == Plus(Plus(Minus(a.inertia, ScaleMat(SkewSquared(a.center), a.mass)),
                            Minus(b.inertia, ScaleMat(SkewSquared(b.center), b.mass))),
                       ScaleMat(SkewSquared(c), M))
  {
    hide SkewSquared, ScaleMat, Plus, Minus, Weighted;
    var c, M := Combine(a, b).center, a.mass + b.mass;
    CenterEquation(a.mass, a.center.x, b.mass, b.center.x, c.x, M);
    CenterEquation(a.mass, a.center.y, b.mass, b.center.y, c.y, M);
    CenterEquation(a.mass, a.center.z, b.mass, b.center.z, c.z, M);
  }

  lemma Rearranged(i1: Mat3, i2: Mat3, p: Mat3, q: Mat3, r: Mat3)
    ensures Plus(Plus(Minus(i1, Minus(NOTHING, p)), Minus(i2, Minus(NOTHING, q))), Minus(NOTHING, r))
            == Plus(Plus(i1, i2), Minus(Plus(p, q), r))
  {
  }

  lemma CenterEquation(m1: real, x1: real, m2: real, x2: real, x: real, M: real)
    requires M == m1 + m2 && M > 0.0 && x == Weighted(m1, x1, m2, x2)
    ensures M * x == m1 * x1 + m2 * x2
  {
  }

  predicate Symmetric(m: Mat3) { m.c0.y == m.c1.x && m.c0.z == m.c2.x && m.c1.z == m.c2.y }

  ghost predicate PositiveSemidefinite(m: Mat3) { forall v: Vec3 :: Dot(v, Apply(m, v)) >= 0.0 }

  // The inertia of a unit point mass, as a quadratic form.
  lemma PointInertiaForm(c: Vec3, v: Vec3)
    ensures Dot(v, Apply(PointInertia(c), v)) == SquaredNorm(Cross(c, v))
  {
    var d := Dot(c, v);
    var w := Apply(PointInertia(c), v);
    PointInertiaApplied(c, v, d);
    DotOfDifference(Scale(v, Dot(c, c)), Scale(c, d), v);
    DotOfScaled(v, Dot(c, c), v);
    DotOfScaled(c, d, v);
    DotSymmetric(v, w);
    CrossNorm(c, v);
    hide *;
  }

  lemma PointInertiaApplied(c: Vec3, v: Vec3, d: real)
    requires d == Dot(c, v)
    ensures Apply(PointInertia(c), v) == Sub(Scale(v, Dot(c, c)), Scale(c, d))
  {
    hide PointInertia, Apply, Times, Skew, ScaleMat, Scale, Sub, Dot, Cross;
    SkewSquaredIsPointInertia(c);
    TwiceNegated(PointInertia(c));
    ApplyScaled(SkewSquared(c), -1.0, v);
    ApplyTimes(Skew(c), Skew(c), v);
    ApplySkew(c, v);
    ApplySkew(c, Cross(c, v));
    DoubleCross(c, c, v);
    NegatedDifference(Scale(c, d), Scale(v, Dot(c, c)));
  }

  lemma TwiceNegated(m: Mat3)
    ensures ScaleMat(ScaleMat(m, -1.0), -1.0) == m
  {
  }

  // |c x v|^2 = |c|^2 |v|^2 - (c.v)^2.
  lemma CrossNorm(c: Vec3, v: Vec3)
    ensures SquaredNorm(Cross(c, v)) == Dot(c, c) * Dot(v, v) - Dot(c, v) * Dot(c, v)
  {
    hide Dot, Cross, Scale, Sub;
    var x := Cross(c, v);
    SquaredNormIsDot(x);
    TripleProduct(c, v, x);
    DoubleCross(v, c, v);
    DotSymmetric(c, Cross(v, x));
    DotOfDifference(Scale(c, Dot(v, v)), Scale(v, Dot(v, c)), c);
    DotOfScaled(c, Dot(v, v), c);
    DotOfScaled(v, Dot(v, c), c);
    DotSymmetric(v, c);
  }

  lemma ApplyMinusForm(m: Mat3, n: Mat3, f: real, v: Vec3)
    ensures Dot(v, Apply(Plus(m, ScaleMat(n, f)), v)) == Dot(v, Apply(m, v)) + f * Dot(v, Apply(n, v))
  {
    hide Dot, Apply, Add, Scale;
    ApplyPlus(m, ScaleMat(n, f), v);
    ApplyScaled(n, f, v);
    var p, q := Apply(m, v), Apply(n, v);
    DotSymmetric(v, Add(p, Scale(q, f)));
    DotOfSum(p, Scale(q, f), v);
    DotOfScaled(q, f, v);
    DotSymmetric(v, p);
    DotSymmetric(v, q);
  }

  // Combined inertia tensors stay symmetric and positive semidefinite.
  lemma CombinedInertiaIsProper(a: Body, b: Body)
    requires a.mass > 0.0 && b.mass > 0.0
    ensures Symmetric(a.inertia) && Symmetric(b.inertia) ==> Symmetric(Combine(a, b).inertia)
    ensures PositiveSemidefinite(a.inertia) && PositiveSemidefinite(b.inertia) ==>
              PositiveSemidefinite(Combine(a, b).inertia)
  {
    var mu, d := a.mass * b.mass / (a.mass + b.mass), Sub(a.center, b.center);
    QuotientNonNegative(a.mass, b.mass);
    ParallelAxes(a, b);
    SymmetricSum(a.inertia, b.inertia, d, mu);
    hide Combine, PointInertia, ScaleMat, Symmetric, Dot, Apply, Plus, SquaredNorm;
    if PositiveSemidefinite(a.inertia) && PositiveSemidefinite(b.inertia) {
      forall v: Vec3 ensures Dot(v, Apply(Combine(a, b).inertia, v)) >= 0.0 {
        SumIsSemidefinite(a.inertia, b.inertia, d, mu, v);
      }
    }
  }

  lemma QuotientNonNegative(m1: real, m2: real)
    requires m1 > 0.0 && m2 > 0.0
    ensures m1 * m2 / (m1 + m2) >= 0.0
  {
    ProductPositive(m1, m2);
  }

  lemma SymmetricSum(m: Mat3, n: Mat3, d: Vec3, mu: real)
    ensures Symmetric(m) && Symmetric(n) ==> Symmetric(Plus(Plus(m, n), ScaleMat(PointInertia(d), mu)))
  {
    SymmetricPoint(d, mu);
    hide PointInertia, ScaleMat;
  }

  lemma SymmetricPoint(d: Vec3, mu: real)
    ensures Symmetric(ScaleMat(PointInertia(d), mu))
  {
    assert d.x * d.y == d.y * d.x && d.x * d.z == d.z * d.x && d.y * d.z == d.z * d.y;
  }

  lemma SumIsSemidefinite(m: Mat3, n: Mat3, d: Vec3, mu: real, v: Vec3)
    requires mu >= 0.0 && Dot(v, Apply(m, v)) >= 0.0 && Dot(v, Apply(n, v)) >= 0.0
    ensures Dot(v, Apply(Plus(Plus(m, n), ScaleMat(PointInertia(d), mu)), v)) >= 0.0
  {
    hide Dot, Apply, Plus, ScaleMat, PointInertia, SquaredNorm;
    ApplyMinusForm(Plus(m, n), PointInertia(d), mu, v);
    UnitScale(n);
    ApplyMinusForm(m, n, 1.0, v);
    PointInertiaForm(d, v);
    SquaredNormNonNegative(Cross(d, v));
    ProductNonNegative(mu, SquaredNorm(Cross(d, v)));
  }

  lemma UnitScale(m: Mat3)
    ensures ScaleMat(m, 1.0) == m
  {
  }
}
