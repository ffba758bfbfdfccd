/** Synchronisation of the joints in MotionGenerator::calculateSynchronizedValues. */
module Synchronization {
  import opened Reals

  const DELTA_Q_MOTION_FINISHED := 0.000001

  function Sign(x: real): real { if x > 0.0 then 1.0 else if x < 0.0 then -1.0 else 0.0 }

  // One joint: its maximal speed, its accelerations at start and goal, and the way to go.
  datatype Joint = Joint(dqMax: real, ddqMaxStart: real, ddqMaxGoal: real, deltaQ: real) {
    ghost predicate Valid() { dqMax > 0.0 && ddqMaxStart > 0.0 && ddqMaxGoal > 0.0 }

    predicate Moves() { Abs(deltaQ) > DELTA_Q_MOTION_FINISHED }
  }

  // The synchronised profile: cruising speed, end of acceleration, start of
  // braking, end, and the position reached at t1.
  datatype Profile = Profile(speed: real, t1: real, t2: real, tf: real, q1: real)

  // Phases in order, ramps at the accelerations A and B, the whole way D covered.
  ghost predicate WellPhased(A: real, B: real, D: real, v: real, t1: real, t2: real, tf: real) {
    && 0.0 < v && 0.0 < t1 <= t2 < tf
    && t1 * A == 1.5 * v && (tf - t2) * B == 1.5 * v
    && v * (t1 / 2.0 + (t2 - t1) + (tf - t2) / 2.0) == D
  }

  const STILL := Profile(0.0, 0.0, 0.0, 0.0, 0.0)

  predicate TooShortToCruise(j: Joint)
    requires j.ddqMaxStart != 0.0 && j.ddqMaxGoal != 0.0
  {
    Abs(j.deltaQ) < 3.0 / 4.0 * (j.dqMax * j.dqMax / j.ddqMaxStart) + 3.0 / 4.0 * (j.dqMax * j.dqMax / j.ddqMaxGoal)
  }

  // The square of the speed at which the ramps alone cover the way.
  function ReachableSquare(j: Joint): real
    requires j.ddqMaxStart > 0.0 && j.ddqMaxGoal > 0.0
  {
    4.0 / 3.0 * j.deltaQ * Sign(j.deltaQ) * (j.ddqMaxStart * j.ddqMaxGoal) / (j.ddqMaxStart + j.ddqMaxGoal)
  }

  function ReachableSpeed(sqrt: real -> real, j: Joint): real
    requires j.ddqMaxStart > 0.0 && j.ddqMaxGoal > 0.0
  {
    if TooShortToCruise(j) then sqrt(ReachableSquare(j)) else j.dqMax
  }

  // Duration of the motion with accelerations A, B and cruising speed v.
  function Duration(A: real, B: real, deltaQ: real, v: real): real
    requires A != 0.0 && B != 0.0 && v != 0.0
  {
    1.5 * v / A / 2.0 + 1.5 * v / B / 2.0 + Abs(deltaQ) / v
  }

  // The shortest duration of this joint's motion, zero for a joint that stays.
  function MinimumTime(sqrt: real -> real, j: Joint): real
    requires IsSquareRoot(sqrt) && j.Valid()
  {
    if j.Moves() then
      ReachIsPositive(sqrt, j);
      Duration(j.ddqMaxStart, j.ddqMaxGoal, j.deltaQ, ReachableSpeed(sqrt, j))
    else 0.0
  }

  function RawDiscriminant(j: Joint, T: real): real {
    var a := 1.5 / 2.0 * (j.ddqMaxGoal + j.ddqMaxStart);
    var b := -1.0 * T * j.ddqMaxGoal * j.ddqMaxStart;
    var c := Abs(j.deltaQ) * j.ddqMaxGoal * j.ddqMaxStart;
    b * b - 4.0 * a * c
  }

  // The smaller solution of the quadratic, given the root of its discriminant.
  function SmallerSolution(j: Joint, T: real, root: real): real
    requires j.ddqMaxGoal + j.ddqMaxStart != 0.0
  {
    var a := 1.5 / 2.0 * (j.ddqMaxGoal + j.ddqMaxStart);
    var b := -1.0 * T * j.ddqMaxGoal * j.ddqMaxStart;
    (-1.0 * b - root) / (2.0 * a)
  }

  function SynchronizedSpeed(sqrt: real -> real, j: Joint, T: real): real
    requires j.ddqMaxGoal + j.ddqMaxStart != 0.0
  {
    SmallerSolution(j, T, sqrt(if RawDiscriminant(j, T) < 0.0 then 0.0 else RawDiscriminant(j, T)))
  }

  function ProfileAtSpeed(j: Joint, v: real): Profile
    requires j.ddqMaxStart != 0.0 && j.ddqMaxGoal != 0.0 && v != 0.0
  {
    var t1, dt2 := 1.5 * v / j.ddqMaxStart, 1.5 * v / j.ddqMaxGoal;
    var tf := t1 / 2.0 + dt2 / 2.0 + Abs(j.deltaQ / v);
    Profile(v, t1, tf - dt2, tf, v * Sign(j.deltaQ) * (0.5 * t1))
  }

  function Synchronized(sqrt: real -> real, j: Joint, T: real): Profile
    requires IsSquareRoot(sqrt) && j.Valid() && j.Moves() && MinimumTime(sqrt, j) <= T
  {
    SynchronizedSpeedFacts(sqrt, j, T);
    ProfileAtSpeed(j, SynchronizedSpeed(sqrt, j, T))
  }

  // ----- The reachable speed -----

  // Half the duration of accelerating to and braking from unit speed.
  function HalfRamp(A: real, B: real): real
    requires A != 0.0 && B != 0.0
  {
    0.75 / A + 0.75 / B
  }

  lemma HalfRampFacts(A: real, B: real)
    requires A > 0.0 && B > 0.0
    ensures HalfRamp(A, B) > 0.0
    ensures HalfRamp(A, B) * (A * B) == 0.75 * (A + B)
  {
    var p, q := 0.75 / A, 0.75 / B;
    assert p * A == 0.75 && q * B == 0.75;
    HalfRampProduct(p, q, A, B);
  }

  lemma HalfRampProduct(p: real, q: real, A: real, B: real)
    requires p * A == 0.75 && q * B == 0.75
    ensures (p + q) * (A * B) == 0.75 * (A + B)
  {
    assert p * (A * B) == (p * A) * B && q * (A * B) == (q * B) * A;
  }

  lemma RampTerms(A: real, B: real, v: real)
    requires A > 0.0 && B > 0.0
    ensures 1.5 * v / A / 2.0 + 1.5 * v / B / 2.0 == HalfRamp(A, B) * v
    ensures 1.5 * v / A + 1.5 * v / B == 2.0 * (HalfRamp(A, B) * v)
    ensures 3.0 / 4.0 * (v * v / A) + 3.0 / 4.0 * (v * v / B) == HalfRamp(A, B) * (v * v)
  {
    Ratio(1.5, v, A, 0.75 / A);
    Ratio(1.5, v, B, 0.75 / B);
    Ratio(0.75, v * v, A, 0.75 / A);
    Ratio(0.75, v * v, B, 0.75 / B);
    assert HalfRamp(A, B) * v == 0.75 / A * v + 0.75 / B * v;
    assert HalfRamp(A, B) * (v * v) == 0.75 / A * (v * v) + 0.75 / B * (v * v);
  }

  lemma Ratio(f: real, x: real, A: real, p: real)
    requires A > 0.0 && p == 0.75 / A
    ensures f * x / A == f / 0.75 * (p * x)
    ensures f * (x / A) == f / 0.75 * (p * x)
  {
    var r := x / A;
    assert r * A == x && p * A == 0.75;
    assert p * x == p * A * r;
    assert f * x / A == f * r by {
      assert (f * r) * A == f * x;
    }
  }

  lemma ReachSquared(A: real, B: real, h: real, D: real, x: real)
    requires A > 0.0 && B > 0.0 && h * (A * B) == 0.75 * (A + B) && x * (A + B) == 4.0 / 3.0 * D * (A * B)
    ensures h * x == D
  {
    var s := A + B;
    assert s * (h * x) == h * (x * s);
    assert h * (4.0 / 3.0 * D * (A * B)) == 4.0 / 3.0 * D * (h * (A * B));
    assert s * (h * x) == s * D;
    if h * x < D {
      ScaleStrict(s, h * x, D);
    } else if h * x > D {
      ScaleStrict(s, D, h * x);
    }
  }

  lemma ScaleStrict(f: real, a: real, b: real)
    requires f > 0.0 && a < b
    ensures f * a < f * b
  {
    ProductPositive(f, b - a);
  }

  lemma ReachedSpeedSquared(sqrt: real -> real, j: Joint)
    requires IsSquareRoot(sqrt) && j.Valid() && j.Moves() && TooShortToCruise(j)
    ensures var v := ReachableSpeed(sqrt, j);
            v > 0.0 && HalfRamp(j.ddqMaxStart, j.ddqMaxGoal) * (v * v) == Abs(j.deltaQ)
  {
    var A, B, D := j.ddqMaxStart, j.ddqMaxGoal, Abs(j.deltaQ);
    var x := 4.0 / 3.0 * j.deltaQ * Sign(j.deltaQ) * (A * B) / (A + B);
    assert 4.0 / 3.0 * j.deltaQ * Sign(j.deltaQ) == 4.0 / 3.0 * D;
    ProductPositive(A, B);
    ProductPositive(4.0 / 3.0 * D, A * B);
    assert x * (A + B) == 4.0 / 3.0 * D * (A * B);
    assert x > 0.0;
    HalfRampFacts(A, B);
    ReachSquared(A, B, HalfRamp(A, B), D, x);
    assert sqrt(x) >= 0.0 && sqrt(x) * sqrt(x) == x;
  }

  lemma ReachIsPositive(sqrt: real -> real, j: Joint)
    requires IsSquareRoot(sqrt) && j.Valid() && j.Moves()
    ensures ReachableSpeed(sqrt, j) > 0.0
  {
    if TooShortToCruise(j) {
      ReachedSpeedSquared(sqrt, j);
    }
  }

  // The reachable speed respects the limit, and its ramps fit into the way to go.
  lemma ReachFits(sqrt: real -> real, j: Joint)
    requires IsSquareRoot(sqrt) && j.Valid() && j.Moves()
    ensures var v := ReachableSpeed(sqrt, j);
            0.0 < v <= j.dqMax && HalfRamp(j.ddqMaxStart, j.ddqMaxGoal) * (v * v) <= Abs(j.deltaQ)
  {
    var h, D := HalfRamp(j.ddqMaxStart, j.ddqMaxGoal), Abs(j.deltaQ);
    RampTerms(j.ddqMaxStart, j.ddqMaxGoal, j.dqMax);
    HalfRampFacts(j.ddqMaxStart, j.ddqMaxGoal);
    if TooShortToCruise(j) {
      ReachedSpeedSquared(sqrt, j);
      var v := ReachableSpeed(sqrt, j);
      hide *;
      assert h * (v * v) < h * (j.dqMax * j.dqMax);
      CancelFactor(h, v * v, j.dqMax * j.dqMax);
      SquareOrder(v, j.dqMax);
    }
  }

  // ----- The quadratic for the synchronised speed -----

  // T is at least the duration at speed u: the discriminant is a square plus a surplus.
  lemma DiscriminantNonNegative(h: real, D: real, u: real, n: real, T: real)
    requires h > 0.0 && u > 0.0 && n * u == D && n >= 0.0 && T >= h * u + n
    ensures T * T - 4.0 * (h * D) >= (h * u - n) * (h * u - n)
  {
    var m := h * u;
    assert m * n == h * D by { assert m * n == h * (n * u); }
    ProductNonNegative(h, u);
    ScaleOrder(T, m + n, T);
    ScaleOrder(m + n, m + n, T);
    assert (m + n) * (m + n) == (m - n) * (m - n) + 4.0 * (m * n);
  }

  lemma SmallerRoot(h: real, D: real, u: real, T: real, r: real, v: real)
    requires h > 0.0 && D > 0.0 && u > 0.0 && T > 0.0 && T * u >= h * (u * u) + D
    requires r >= 0.0 && r * r == T * T - 4.0 * (h * D) && 2.0 * (h * v) == T - r
    ensures 0.0 < v <= u && h * (v * v) + D == T * v
  {
    ProductPositive(h, D);
    assert v > 0.0 by {
      if r >= T {
        ScaleOrder(r, T, r);
        ScaleOrder(T, T, r);
      }
      PositiveFactor(h, v);
    }
    assert v <= u by {
      var w := T - 2.0 * (h * u);
      RootBelow(h, D, u, T, w);
      SquareOrder(w, r);
      CancelFactor(h, v, u);
    }
    RootEquation(h, D, T, r, v);
  }

  lemma PositiveFactor(h: real, v: real)
    requires h > 0.0 && h * v > 0.0
    ensures v > 0.0
  {
  }

  lemma RootBelow(h: real, D: real, u: real, T: real, w: real)
    requires h > 0.0 && T * u >= h * (u * u) + D && w == T - 2.0 * (h * u)
    ensures w * w <= T * T - 4.0 * (h * D)
  {
    var hu := h * u;
    assert w * w == T * T - 4.0 * (hu * T) + 4.0 * (hu * hu);
    ScaleOrder(h, h * (u * u) + D, T * u);
    assert h * (T * u) == hu * T;
    assert h * (h * (u * u) + D) == hu * hu + h * D;
  }

  lemma RootEquation(h: real, D: real, T: real, r: real, v: real)
    requires h > 0.0 && r * r == T * T - 4.0 * (h * D) && 2.0 * (h * v) == T - r
    ensures h * (v * v) + D == T * v
  {
    var hv := h * v;
    assert r == T - 2.0 * hv;
    assert r * r == T * T - 4.0 * (T * hv) + 4.0 * (hv * hv);
    assert h * (h * (v * v) + D) == hv * hv + h * D;
    assert h * (T * v) == T * hv;
    CancelEqual(h, h * (v * v) + D, T * v);
  }

  lemma ScaledDiscriminant(A: real, B: real, D: real, h: real, T: real, K: real, raw: real)
    requires K == B * A && h * K == 0.75 * (A + B)
    requires raw == (-1.0 * T * B * A) * (-1.0 * T * B * A) - 4.0 * (1.5 / 2.0 * (B + A)) * (D * B * A)
    ensures raw == K * (K * (T * T - 4.0 * (h * D)))
  {
    var x, y := -1.0 * T * B * A, D * B * A;
    assert x == -(T * K) && y == D * K;
    assert x * x == K * (K * (T * T));
    assert 4.0 * (1.5 / 2.0 * (B + A)) * y == 4.0 * (h * K) * (D * K);
    assert K * (K * (4.0 * (h * D))) == 4.0 * (h * K) * (D * K);
  }

  // Dividing the root of a scaled discriminant by the scale.
  lemma ScaledRoot(K: real, root: real, x: real) returns (r: real)
    requires K > 0.0 && root >= 0.0 && root * root == K * (K * x)
    ensures r >= 0.0 && root == K * r && r * r == x
  {
    r := root / K;
    assert root == K * r;
    assert r * root == K * x by { CancelScale(K, r, root, root, K * x); }
    CancelScale(K, r, root, r, x);
  }

  lemma CancelScale(K: real, r: real, root: real, f: real, y: real)
    requires K > 0.0 && root == K * r && f * root == K * y
    ensures r * f == y
  {
    assert K * (r * f) == f * root;
    CancelEqual(K, r * f, y);
  }

  lemma MinimumTimeForm(sqrt: real -> real, j: Joint, h: real, D: real, u: real)
    requires IsSquareRoot(sqrt) && j.Valid() && j.Moves()
    requires h == HalfRamp(j.ddqMaxStart, j.ddqMaxGoal) && D == Abs(j.deltaQ) && u == ReachableSpeed(sqrt, j)
    ensures u > 0.0 && MinimumTime(sqrt, j) == h * u + D / u
  {
    hide ReachableSpeed, HalfRamp, TooShortToCruise, IsSquareRoot;
    ReachIsPositive(sqrt, j);
    RampTerms(j.ddqMaxStart, j.ddqMaxGoal, u);
  }

  lemma RawForm(j: Joint, T: real, h: real, K: real)
    requires j.Valid() && h == HalfRamp(j.ddqMaxStart, j.ddqMaxGoal) && K == j.ddqMaxGoal * j.ddqMaxStart
    ensures h > 0.0 && K > 0.0 && h * K == 0.75 * (j.ddqMaxStart + j.ddqMaxGoal)
    ensures RawDiscriminant(j, T) == K * (K * (T * T - 4.0 * (h * Abs(j.deltaQ))))
  {
    hide HalfRamp;
    HalfRampFacts(j.ddqMaxStart, j.ddqMaxGoal);
    ProductPositive(j.ddqMaxGoal, j.ddqMaxStart);
    ScaledDiscriminant(j.ddqMaxStart, j.ddqMaxGoal, Abs(j.deltaQ), h, T, K, RawDiscriminant(j, T));
  }

  lemma SpeedForm(sqrt: real -> real, j: Joint, T: real, h: real, K: real, r: real)
    requires j.Valid() && K == j.ddqMaxGoal * j.ddqMaxStart && K > 0.0 && h * K == 0.75 * (j.ddqMaxStart + j.ddqMaxGoal)
    requires RawDiscriminant(j, T) >= 0.0 && sqrt(RawDiscriminant(j, T)) == K * r
    ensures 2.0 * (h * SynchronizedSpeed(sqrt, j, T)) == T - r
  {
    hide RawDiscriminant;
    var A, B, root := j.ddqMaxStart, j.ddqMaxGoal, sqrt(RawDiscriminant(j, T));
    var v := SynchronizedSpeed(sqrt, j, T);
    assert v == (T * B * A - root) / (1.5 * (B + A));
    RootQuotient(A, B, h, K, T, r, root, v);
  }

  // The discriminant and the synchronised speed in terms of the half ramp h.
  lemma ReducedRoot(sqrt: real -> real, j: Joint, T: real, h: real, D: real) returns (r: real)
    requires IsSquareRoot(sqrt) && j.Valid() && j.Moves() && T * T - 4.0 * (h * D) >= 0.0
    requires h == HalfRamp(j.ddqMaxStart, j.ddqMaxGoal) && D == Abs(j.deltaQ)
    ensures RawDiscriminant(j, T) >= 0.0
    ensures r >= 0.0 && r * r == T * T - 4.0 * (h * D) && 2.0 * (h * SynchronizedSpeed(sqrt, j, T)) == T - r
  {
    hide HalfRamp, RawDiscriminant, SynchronizedSpeed, IsSquareRoot, Abs, Joint.Moves;
    var K, d := j.ddqMaxGoal * j.ddqMaxStart, T * T - 4.0 * (h * D);
    RawForm(j, T, h, K);
    ProductNonNegative(K, d);
    ProductNonNegative(K, K * d);
    var raw := RawDiscriminant(j, T);
    RootSquares(sqrt, raw);
    r := ScaledRoot(K, sqrt(raw), d);
    SpeedForm(sqrt, j, T, h, K, r);
  }

  // For every common time that is long enough the discriminant is non-negative,
  // so clamping it changes nothing, and the chosen root is a speed the joint can
  // reach, with which its motion takes exactly the common time.
  lemma SynchronizedSpeedFacts(sqrt: real -> real, j: Joint, T: real)
    requires IsSquareRoot(sqrt) && j.Valid() && j.Moves() && MinimumTime(sqrt, j) <= T
    ensures RawDiscriminant(j, T) >= 0.0
    ensures var v := SynchronizedSpeed(sqrt, j, T);
            && 0.0 < v <= ReachableSpeed(sqrt, j) <= j.dqMax
            && HalfRamp(j.ddqMaxStart, j.ddqMaxGoal) * (v * v) + Abs(j.deltaQ) == T * v
            && HalfRamp(j.ddqMaxStart, j.ddqMaxGoal) * (v * v) <= Abs(j.deltaQ)
  {
    hide ReachableSpeed, HalfRamp, MinimumTime, TooShortToCruise, RawDiscriminant, SynchronizedSpeed, IsSquareRoot,
         Abs, Joint.Moves, Joint.Valid;
    var h, D, u := ReachFacts(sqrt, j);
    LongEnough(h, D, u, T);
    var r := ReducedRoot(sqrt, j, T, h, D);
    ChosenRoot(h, D, u, T, r, SynchronizedSpeed(sqrt, j, T));
  }

  lemma ReachFacts(sqrt: real -> real, j: Joint) returns (h: real, D: real, u: real)
    requires IsSquareRoot(sqrt) && j.Valid() && j.Moves()
    ensures j.ddqMaxStart > 0.0 && j.ddqMaxGoal > 0.0
    ensures h == HalfRamp(j.ddqMaxStart, j.ddqMaxGoal) && D == Abs(j.deltaQ) && u == ReachableSpeed(sqrt, j)
    ensures h > 0.0 && D > 0.0 && 0.0 < u <= j.dqMax && h * (u * u) <= D && MinimumTime(sqrt, j) == h * u + D / u
  {
    h, D, u := HalfRamp(j.ddqMaxStart, j.ddqMaxGoal), Abs(j.deltaQ), ReachableSpeed(sqrt, j);
    assert D > 0.0;
    hide ReachableSpeed, HalfRamp, MinimumTime, TooShortToCruise, IsSquareRoot, Abs, Joint.Moves;
    MinimumTimeForm(sqrt, j, h, D, u);
    HalfRampFacts(j.ddqMaxStart, j.ddqMaxGoal);
    ReachFits(sqrt, j);
  }

  lemma LongEnough(h: real, D: real, u: real, T: real)
    requires h > 0.0 && D > 0.0 && u > 0.0 && T >= h * u + D / u
    ensures T > 0.0 && T * u >= h * (u * u) + D && T * T - 4.0 * (h * D) >= 0.0
  {
    var n := D / u;
    assert n * u == D;
    TimeIsLongEnough(h, D, u, n, T);
  }

  lemma ChosenRoot(h: real, D: real, u: real, T: real, r: real, v: real)
    requires h > 0.0 && D > 0.0 && u > 0.0 && T > 0.0 && T * u >= h * (u * u) + D && h * (u * u) <= D
    requires r >= 0.0 && r * r == T * T - 4.0 * (h * D) && 2.0 * (h * v) == T - r
    ensures 0.0 < v <= u && h * (v * v) + D == T * v && h * (v * v) <= D
  {
    SmallerRoot(h, D, u, T, r, v);
    SlowerRampFits(h, v, u, D);
  }

  lemma SlowerRampFits(h: real, v: real, u: real, D: real)
    requires h > 0.0 && 0.0 < v <= u && h * (u * u) <= D
    ensures h * (v * v) <= D
  {
    var v2, u2 := v * v, u * u;
    assert v2 <= u2 by {
      ScaleOrder(v, v, u);
      ScaleOrder(u, v, u);
    }
    ScaleOrder(h, v2, u2);
  }

  lemma RootSquares(sqrt: real -> real, x: real)
    requires IsSquareRoot(sqrt) && x >= 0.0
    ensures sqrt(x) >= 0.0 && sqrt(x) * sqrt(x) == x
  {
  }

  lemma TimeIsLongEnough(h: real, D: real, u: real, n: real, T: real)
    requires h > 0.0 && u > 0.0 && n * u == D && D > 0.0 && T >= h * u + n
    ensures T > 0.0 && T * u >= h * (u * u) + D
    ensures T * T - 4.0 * (h * D) >= 0.0
  {
    ProductPositive(h, u);
    PositiveFactor(u, n);
    ScaleOrder(u, h * u + n, T);
    assert u * (h * u + n) == h * (u * u) + n * u;
    DiscriminantNonNegative(h, D, u, n, T);
    SquareNonNegative(h * u - n);
  }

  lemma RootQuotient(A: real, B: real, h: real, K: real, T: real, r: real, root: real, v: real)
    requires A > 0.0 && B > 0.0 && K == B * A && K > 0.0 && h * K == 0.75 * (A + B) && root == K * r
    requires v == (T * B * A - root) / (1.5 * (B + A))
    ensures 2.0 * (h * v) == T - r
  {
    var s := 1.5 * (B + A);
    assert v * s == T * B * A - root;
    assert T * B * A == K * T;
    assert K * (2.0 * (h * v)) == v * (2.0 * (h * K));
    assert K * (T - r) == K * T - K * r;
    CancelEqual(K, 2.0 * (h * v), T - r);
  }

  // ----- The synchronised profile -----

  // Every joint that moves ends exactly at the common time, with its phases in order.
  lemma SynchronizedExactly(sqrt: real -> real, j: Joint, T: real)
    requires IsSquareRoot(sqrt) && j.Valid() && j.Moves() && MinimumTime(sqrt, j) <= T
    ensures var p := Synchronized(sqrt, j, T);
            && p.tf == T
            && p.speed <= ReachableSpeed(sqrt, j) <= j.dqMax
            && WellPhased(j.ddqMaxStart, j.ddqMaxGoal, Abs(j.deltaQ), p.speed, p.t1, p.t2, p.tf)
            && p.q1 == Sign(j.deltaQ) * (0.5 * p.speed * p.t1)
  {
    hide ReachableSpeed, SynchronizedSpeed, HalfRamp, MinimumTime, IsSquareRoot, Sign, Joint.Moves, Abs, WellPhased,
         ProfileAtSpeed;
    SynchronizedSpeedFacts(sqrt, j, T);
    ProfileFits(j, SynchronizedSpeed(sqrt, j, T), T);
  }

  lemma ProfileFits(j: Joint, v: real, T: real)
    requires j.Valid() && v > 0.0
    requires HalfRamp(j.ddqMaxStart, j.ddqMaxGoal) * (v * v) + Abs(j.deltaQ) == T * v
    requires HalfRamp(j.ddqMaxStart, j.ddqMaxGoal) * (v * v) <= Abs(j.deltaQ)
    ensures var p := ProfileAtSpeed(j, v);
            && p.tf == T && p.speed == v && p.q1 == Sign(j.deltaQ) * (0.5 * v * p.t1)
            && WellPhased(j.ddqMaxStart, j.ddqMaxGoal, Abs(j.deltaQ), p.speed, p.t1, p.t2, p.tf)
  {
    hide HalfRamp, Sign, Abs, WellPhased;
    PhaseTimes(j.ddqMaxStart, j.ddqMaxGoal, v, j.deltaQ, T);
    Regroup(v, Sign(j.deltaQ), 1.5 * v / j.ddqMaxStart);
  }

  lemma PhaseTimes(A: real, B: real, v: real, deltaQ: real, T: real)
    requires A > 0.0 && B > 0.0 && v > 0.0
    requires HalfRamp(A, B) * (v * v) + Abs(deltaQ) == T * v && HalfRamp(A, B) * (v * v) <= Abs(deltaQ)
    ensures var t1, dt2 := 1.5 * v / A, 1.5 * v / B;
            && t1 / 2.0 + dt2 / 2.0 + Abs(deltaQ / v) == T
            && WellPhased(A, B, Abs(deltaQ), v, t1, T - dt2, T)
  {
    hide HalfRamp;
    var D, n, h := Abs(deltaQ), Abs(deltaQ) / v, HalfRamp(A, B);
    RampTerms(A, B, v);
    AbsOfQuotient(deltaQ, v);
    assert n * v == D;
    EndTime(h, v, n, D, T);
    QuotientPositive(1.5 * v, A);
    QuotientPositive(1.5 * v, B);
    var hv, t1, dt2 := h * v, 1.5 * v / A, 1.5 * v / B;
    PhasesAddUp(v, t1, T - dt2, T, hv, n, D);
  }

  lemma Regroup(v: real, s: real, t: real)
    ensures v * s * (0.5 * t) == s * (0.5 * v * t)
  {
  }

  lemma AbsOfQuotient(x: real, v: real)
    requires v > 0.0
    ensures Abs(x / v) == Abs(x) / v
  {
  }

  lemma QuotientPositive(x: real, A: real)
    requires x > 0.0 && A > 0.0
    ensures x / A > 0.0 && x / A * A == x
  {
  }

  lemma EndTime(h: real, v: real, n: real, D: real, T: real)
    requires v > 0.0 && n * v == D && h * (v * v) + D == T * v && h * (v * v) <= D
    ensures h * v + n == T && h * v <= n
  {
    assert v * (h * v + n) == v * T;
    CancelEqual(v, h * v + n, T);
    assert v * (h * v) <= v * n;
    CancelFactor(v, h * v, n);
  }

  lemma PhasesAddUp(v: real, t1: real, t2: real, tf: real, x: real, n: real, D: real)
    requires t2 - t1 == n - x && t1 + (tf - t2) == 2.0 * x && n * v == D
    ensures v * (t1 / 2.0 + (t2 - t1) + (tf - t2) / 2.0) == D
  {
    assert t1 / 2.0 + (t2 - t1) + (tf - t2) / 2.0 == n;
  }

  // ----- The common time -----

  function Longest(sqrt: real -> real, joints: seq<Joint>): real
    requires IsSquareRoot(sqrt) && (forall j :: j in joints ==> j.Valid()) && joints != []
  {
    var last := MinimumTime(sqrt, joints[|joints| - 1]);
    if |joints| == 1 then last else Max(Longest(sqrt, joints[..|joints| - 1]), last)
  }

  // The common time is the longest of the joints' minimum times: nothing faster would do.
  lemma {:induction false} LongestIsMaximum(sqrt: real -> real, joints: seq<Joint>)
    requires IsSquareRoot(sqrt) && (forall j :: j in joints ==> j.Valid()) && joints != []
    ensures forall i :: 0 <= i < |joints| ==> MinimumTime(sqrt, joints[i]) <= Longest(sqrt, joints)
    ensures exists i :: 0 <= i < |joints| && MinimumTime(sqrt, joints[i]) == Longest(sqrt, joints)
    ensures Longest(sqrt, joints) >= 0.0
    ensures (forall i :: 0 <= i < |joints| ==> !joints[i].Moves()) ==> Longest(sqrt, joints) == 0.0
  {
    hide IsSquareRoot, Duration, ReachableSpeed;
    var n := |joints| - 1;
    MinimumTimeNonNegative(sqrt, joints[n]);
    if |joints| > 1 {
      LongestIsMaximum(sqrt, joints[..n]);
      var i :| 0 <= i < n && MinimumTime(sqrt, joints[..n][i]) == Longest(sqrt, joints[..n]);
      assert MinimumTime(sqrt, joints[i]) == Longest(sqrt, joints[..n]);
      forall k | 0 <= k < |joints| ensures MinimumTime(sqrt, joints[k]) <= Longest(sqrt, joints) {
        if k < n {
          assert joints[k] == joints[..n][k];
        }
      }
    }
  }

  lemma MinimumTimeNonNegative(sqrt: real -> real, j: Joint)
    requires IsSquareRoot(sqrt) && j.Valid()
    ensures MinimumTime(sqrt, j) >= 0.0
  {
    if j.Moves() {
      ReachIsPositive(sqrt, j);
      var v := ReachableSpeed(sqrt, j);
      hide ReachableSpeed, IsSquareRoot;
      QuotientPositive(1.5 * v, j.ddqMaxStart);
      QuotientPositive(1.5 * v, j.ddqMaxGoal);
      QuotientPositive(Abs(j.deltaQ), v);
    }
  }

  // ----- No motion within the limits is faster -----

  // The profile moves the joint all the way, within its maximal speed and with
  // accelerations a and b up to the maximal ones.
  ghost predicate Within(j: Joint, p: Profile, a: real, b: real) {
    && p.speed <= j.dqMax && 0.0 < a <= j.ddqMaxStart && 0.0 < b <= j.ddqMaxGoal
    && WellPhased(a, b, Abs(j.deltaQ), p.speed, p.t1, p.t2, p.tf)
  }

  ghost predicate CanFinishIn(j: Joint, T: real) {
    exists p: Profile, a: real, b: real :: Within(j, p, a, b) && p.tf == T
  }

  // The joint can finish in exactly the times from its minimum time on.
  lemma MinimumTimeIsLeast(sqrt: real -> real, j: Joint, T: real)
    requires IsSquareRoot(sqrt) && j.Valid() && j.Moves()
    ensures CanFinishIn(j, T) <==> MinimumTime(sqrt, j) <= T
  {
    hide IsSquareRoot, MinimumTime, WellPhased, Synchronized, Joint.Moves, ReachableSpeed, Sign, Abs;
    if CanFinishIn(j, T) {
      var p, a, b :| Within(j, p, a, b) && p.tf == T;
      NoneIsFaster(sqrt, j, p, a, b);
    }
    if MinimumTime(sqrt, j) <= T {
      SynchronizedExactly(sqrt, j, T);
      assert Within(j, Synchronized(sqrt, j, T), j.ddqMaxStart, j.ddqMaxGoal);
    }
  }

  lemma NoneIsFaster(sqrt: real -> real, j: Joint, p: Profile, a: real, b: real)
    requires IsSquareRoot(sqrt) && j.Valid() && j.Moves() && Within(j, p, a, b)
    ensures MinimumTime(sqrt, j) <= p.tf
  {
    hide IsSquareRoot, MinimumTime, Joint.Moves, Joint.Valid, ReachableSpeed, Abs, HalfRamp, WellPhased;
    var h, D, R := ReachFacts(sqrt, j);
    ReachIsFastest(sqrt, j, h, D, R);
    var s := WayOfRamps(j.ddqMaxStart, j.ddqMaxGoal, a, b, h, D, p);
    LeastTime(h, D, R, j.dqMax, p.speed, s, p.tf);
  }

  lemma ReachIsFastest(sqrt: real -> real, j: Joint, h: real, D: real, u: real)
    requires IsSquareRoot(sqrt) && j.Valid() && j.Moves() && h == HalfRamp(j.ddqMaxStart, j.ddqMaxGoal)
    requires D == Abs(j.deltaQ) && u == ReachableSpeed(sqrt, j)
    ensures u == j.dqMax || h * (u * u) == D
  {
    hide IsSquareRoot, TooShortToCruise, ReachableSquare, HalfRamp, Abs, Joint.Moves;
    if TooShortToCruise(j) {
      ReachedSpeedSquared(sqrt, j);
    }
  }

  // The way s that the ramps save: at least that of the maximal accelerations.
  lemma WayOfRamps(A: real, B: real, a: real, b: real, h: real, D: real, p: Profile) returns (s: real)
    requires 0.0 < a <= A && 0.0 < b <= B && h == HalfRamp(A, B)
    requires WellPhased(a, b, D, p.speed, p.t1, p.t2, p.tf)
    ensures p.speed > 0.0 && h * (p.speed * p.speed) <= s <= D && p.tf * p.speed == D + s
  {
    hide HalfRamp;
    var v, x, y := p.speed, p.t1 / 2.0, (p.tf - p.t2) / 2.0;
    HalfTime(a, A, v, p.t1, 0.75 / A);
    HalfTime(b, B, v, p.tf - p.t2, 0.75 / B);
    RampOfHalves(A, B);
    s := v * (x + y);
    WayAtSpeed(v, 0.75 / A, 0.75 / B, h, x, y, p.tf, D);
  }

  lemma RampOfHalves(A: real, B: real)
    requires A != 0.0 && B != 0.0
    ensures HalfRamp(A, B) == 0.75 / A + 0.75 / B
  {
  }

  lemma HalfTime(a: real, A: real, v: real, t: real, p: real)
    requires 0.0 < a <= A && t > 0.0 && t * a == 1.5 * v && p == 0.75 / A
    ensures p * v <= t / 2.0
  {
    assert p * A == 0.75;
    ScaleOrder(t, a, A);
    assert A * (p * v) == 0.75 * v by { assert A * (p * v) == p * A * v; }
    assert A * (t / 2.0) == t * A / 2.0;
    CancelFactor(A, p * v, t / 2.0);
  }

  lemma WayAtSpeed(v: real, p: real, q: real, h: real, x: real, y: real, tf: real, D: real)
    requires v > 0.0 && h == p + q && p * v <= x && q * v <= y && tf >= 2.0 * (x + y) && v * (tf - x - y) == D
    ensures h * (v * v) <= v * (x + y) <= D && tf * v == D + v * (x + y)
  {
    assert h * v == p * v + q * v;
    ScaleOrder(v, h * v, x + y);
    assert v * (h * v) == h * (v * v);
    ScaleOrder(v, x + y, tf - x - y);
  }

  // R is the fastest speed within the limit whose ramps fit, and so takes the least time.
  lemma LeastTime(h: real, D: real, R: real, limit: real, v: real, s: real, tf: real)
    requires h > 0.0 && D > 0.0 && R > 0.0 && h * (R * R) <= D && (R == limit || h * (R * R) == D)
    requires 0.0 < v <= limit && h * (v * v) <= s <= D && tf * v == D + s
    ensures h * R + D / R <= tf
  {
    assert v <= R by {
      if R != limit {
        SpeedIsReachable(h, D, R, v, s);
      }
    }
    var n := D / R;
    TimesSpeed(h, D, R, n);
    Crosswise(h, D, R, v, h * R + n, s, tf);
  }

  lemma TimesSpeed(h: real, D: real, R: real, n: real)
    requires R > 0.0 && n == D / R
    ensures (h * R + n) * R == h * (R * R) + D
  {
    assert n * R == D;
    assert (h * R) * R == h * (R * R);
  }

  lemma SpeedIsReachable(h: real, D: real, R: real, v: real, s: real)
    requires h > 0.0 && R > 0.0 && h * (R * R) == D && h * (v * v) <= s <= D
    ensures v <= R
  {
    CancelFactor(h, v * v, R * R);
    SquareOrder(v, R);
  }

  lemma Crosswise(h: real, D: real, R: real, v: real, m: real, s: real, tf: real)
    requires h > 0.0 && 0.0 < v <= R && h * (R * R) <= D && m * R == h * (R * R) + D
    requires h * (v * v) <= s && tf * v == D + s
    ensures m <= tf
  {
    var g := h * (v * R);
    ProductBelow(h, v, R, D);
    ProductNonNegative(R - v, D - g);
    CrossDifference(h, D, R, v, g);
    ScaleOrder(R, D + h * (v * v), tf * v);
    var w := v * R;
    ProductPositive(v, R);
    assert w * m == v * (h * (R * R) + D) by { assert w * m == v * (m * R); }
    assert w * tf == R * (tf * v);
    CancelFactor(w, m, tf);
  }

  lemma ProductBelow(h: real, v: real, R: real, D: real)
    requires h > 0.0 && 0.0 < v <= R && h * (R * R) <= D
    ensures h * (v * R) <= D
  {
    ScaleOrder(R, v, R);
    ScaleOrder(h, v * R, R * R);
  }

  lemma CrossDifference(h: real, D: real, R: real, v: real, g: real)
    requires g == h * (v * R)
    ensures (R - v) * (D - g) == R * (D + h * (v * v)) - v * (h * (R * R) + D)
  {
    assert (R - v) * (D - g) == R * D - v * D - R * g + v * g;
    assert R * g == v * (h * (R * R)) && v * g == R * (h * (v * v));
  }

  // The common time is the least in which all the joints that move can finish.
  lemma {:induction false} CommonTimeIsLeast(sqrt: real -> real, joints: seq<Joint>, T: real)
    requires IsSquareRoot(sqrt) && (forall j :: j in joints ==> j.Valid()) && joints != [] && T >= 0.0
    ensures Longest(sqrt, joints) <= T
        <==> forall i :: 0 <= i < |joints| && joints[i].Moves() ==> CanFinishIn(joints[i], T)
  {
    hide IsSquareRoot, Duration, ReachableSpeed, CanFinishIn, Longest;
    LongestIsMaximum(sqrt, joints);
    forall i | 0 <= i < |joints| && joints[i].Moves()
      ensures CanFinishIn(joints[i], T) <==> MinimumTime(sqrt, joints[i]) <= T
    {
      MinimumTimeIsLeast(sqrt, joints[i], T);
    }
  }
}
