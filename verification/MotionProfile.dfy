/** The quartic-linear-quartic profile of MotionGenerator::calculateDesiredValues. */
module MotionProfile {
  import opened Reals
  import opened Synchronization

  function Cube(x: real): real { x * x * x }

  lemma CubePositive(x: real)
    ensures x > 0.0 ==> Cube(x) > 0.0
  {
    hide Cube;
    if x > 0.0 {
      var y := x * x;
      TimesPositive(x, x, y);
      CubeFromSquare(x, y);
    }
  }

  lemma CubeFromSquare(x: real, y: real)
    requires x > 0.0 && y > 0.0 && y == x * x
    ensures Cube(x) > 0.0
  {
    var c := y * x;
    assert Cube(x) == c;
    TimesPositive(y, x, c);
  }

  lemma TimesPositive(y: real, x: real, c: real)
    requires y > 0.0 && x > 0.0 && c == y * x
    ensures c > 0.0
  {
  }

  function RisingOffset(t1: real, time: real, v: real, s: real): real
    requires Cube(t1) != 0.0
  {
    -1.0 / Cube(t1) * v * s * (0.5 * time - t1) * Cube(time)
  }

  function BrakingOffset(dt2: real, a: real, b: real, c: real, v: real, s: real): real
    requires Cube(dt2) != 0.0
  {
    0.5 * (1.0 / Cube(dt2) * a * Cube(b) + c) * v * s
  }

  // The offset from the start position that one joint is commanded at a time.
  function DesiredDelta(j: Joint, p: Profile, time: real): real
    requires time >= 0.0
  {
    CubePositive(p.t1);
    CubePositive(p.tf - p.t2);
    var s, td, dt2 := Sign(j.deltaQ), p.t2 - p.t1, p.tf - p.t2;
    if Abs(j.deltaQ) < DELTA_Q_MOTION_FINISHED then 0.0
    else if time < p.t1 then RisingOffset(p.t1, time, p.speed, s)
    else if time < p.t2 then p.q1 + (time - p.t1) * p.speed * s
    else if time < p.tf then
      j.deltaQ + BrakingOffset(dt2, time - p.t1 - 2.0 * dt2 - td, time - p.t1 - td,
                               2.0 * time - 2.0 * p.t1 - dt2 - 2.0 * td, p.speed, s)
    else j.deltaQ
  }

  predicate JointFinished(j: Joint, p: Profile, time: real) {
    Abs(j.deltaQ) < DELTA_Q_MOTION_FINISHED || (time >= p.t1 && time >= p.t2 && time >= p.tf)
  }

  // ----- The normalised ramp on [0, 1] and its slope -----

  function Ramp(x: real): real { Cube(x) - x * Cube(x) / 2.0 }

  function Slope(x: real): real { 3.0 * (x * x) - 2.0 * Cube(x) }

  // Taylor's formula with remainder q*(y-x)^2.
  ghost predicate Expansion(x: real, y: real, fx: real, fy: real, gx: real, q: real) {
    0.0 <= q <= 0.75 && fy - fx == gx * (y - x) + q * ((y - x) * (y - x))
  }

  lemma RampTaylor(x: real, y: real) returns (q: real)
    requires 0.0 <= x <= 1.0 && 0.0 <= y <= 1.0
    ensures Expansion(x, y, Ramp(x), Ramp(y), Slope(x), q)
  {
    q := 2.0 * x - 1.5 * (x * x) + y - x * y - 0.5 * (y * y);
    RemainderLow(x, y, q);
    RemainderHigh(x, y, q);
    TaylorExpansion(x, y, q, x * x, x * y, y * y);
  }

  lemma RemainderLow(x: real, y: real, q: real)
    requires 0.0 <= x <= 1.0 && 0.0 <= y <= 1.0 && q == 2.0 * x - 1.5 * (x * x) + y - x * y - 0.5 * (y * y)
    ensures q >= 0.0
  {
    ProductNonNegative(x, 1.0 - x);
    ProductNonNegative(y, 1.0 - y);
    ProductNonNegative(x, 1.0 - y);
    ProductNonNegative(y, 1.0 - x);
  }

  lemma RemainderHigh(x: real, y: real, q: real)
    requires q == 2.0 * x - 1.5 * (x * x) + y - x * y - 0.5 * (y * y)
    ensures q <= 0.75
  {
    var a, b := x - 0.5, y - 0.5;
    SquareNonNegative(a);
    SquareNonNegative(a + b);
    assert (a + b) * (a + b) == a * a + 2.0 * (a * b) + b * b;
  }

  lemma TaylorExpansion(x: real, y: real, q: real, xx: real, xy: real, yy: real)
    requires xx == x * x && xy == x * y && yy == y * y && q == 2.0 * x - 1.5 * xx + y - xy - 0.5 * yy
    ensures Ramp(y) - Ramp(x) == Slope(x) * (y - x) + q * ((y - x) * (y - x))
  {
    hide Ramp, Slope;
    var d2 := (y - x) * (y - x);
    assert d2 == yy - 2.0 * xy + xx by { SquaredDifference(x, y); }
    RampPowers(x, xx);
    RampPowers(y, yy);
    SlopeTimes(x, y, xx, xy);
    MixedPowers(x, y, xx, xy, yy);
    RemainderTimes(x, y, xx, xy, yy, q, d2);
    TaylorTerms(Ramp(x), Ramp(y), Slope(x) * (y - x), q * d2, x * xx, xx * y, x * yy, y * yy,
                xx * xx, xx * xy, xx * yy, yy * xy, yy * yy);
  }

  lemma SquaredDifference(x: real, y: real)
    ensures (y - x) * (y - x) == y * y - 2.0 * (x * y) + x * x
  {
  }

  lemma RampPowers(x: real, xx: real)
    requires xx == x * x
    ensures Ramp(x) == x * xx - xx * xx / 2.0
  {
    assert Cube(x) == x * xx;
    assert x * (x * xx) == xx * xx;
  }

  lemma SlopeTimes(x: real, y: real, xx: real, xy: real)
    requires xx == x * x && xy == x * y
    ensures Slope(x) * (y - x) == 3.0 * (xx * y) - 3.0 * (x * xx) - 2.0 * (xx * xy) + 2.0 * (xx * xx)
  {
    var s, c := Slope(x), x * xx;
    assert s == 3.0 * xx - 2.0 * c;
    assert s * (y - x) == 3.0 * (xx * y) - 3.0 * (xx * x) - 2.0 * (c * y) + 2.0 * (c * x);
    assert c * y == xx * xy && c * x == xx * xx;
  }

  lemma MixedPowers(x: real, y: real, xx: real, xy: real, yy: real)
    requires xx == x * x && xy == x * y && yy == y * y
    ensures x * xy == xx * y && y * xy == x * yy && xy * xy == xx * yy
  {
  }

  // f times the square of y - x.
  lemma TimesDifference(f: real, xx: real, xy: real, yy: real, d2: real)
    requires d2 == yy - 2.0 * xy + xx
    ensures f * d2 == f * yy - 2.0 * (f * xy) + f * xx
  {
  }

  lemma RemainderTimes(x: real, y: real, xx: real, xy: real, yy: real, q: real, d2: real)
    requires q == 2.0 * x - 1.5 * xx + y - xy - 0.5 * yy && d2 == yy - 2.0 * xy + xx
    ensures q * d2 == 2.0 * (x * yy - 2.0 * (x * xy) + x * xx) - 1.5 * (xx * yy - 2.0 * (xx * xy) + xx * xx)
                      + (y * yy - 2.0 * (y * xy) + y * xx) - (xy * yy - 2.0 * (xy * xy) + xy * xx)
                      - 0.5 * (yy * yy - 2.0 * (yy * xy) + yy * xx)
  {
    TimesDifference(x, xx, xy, yy, d2);
    TimesDifference(y, xx, xy, yy, d2);
    TimesDifference(xx, xx, xy, yy, d2);
    TimesDifference(xy, xx, xy, yy, d2);
    TimesDifference(yy, xx, xy, yy, d2);
    TimesRemainder(x, y, xx, xy, yy, q, d2);
  }

  lemma TimesRemainder(x: real, y: real, xx: real, xy: real, yy: real, q: real, d2: real)
    requires q == 2.0 * x - 1.5 * xx + y - xy - 0.5 * yy
    ensures q * d2 == 2.0 * (x * d2) - 1.5 * (xx * d2) + y * d2 - xy * d2 - 0.5 * (yy * d2)
  {
  }

  // Every power is a name of its own, so that the sum is linear.
  lemma TaylorTerms(rx: real, ry: real, slope: real, remainder: real, x3: real, x2y: real, xy2: real, y3: real,
                    x4: real, x3y: real, x2y2: real, xy3: real, y4: real)
    requires rx == x3 - x4 / 2.0 && ry == y3 - y4 / 2.0
    requires slope == 3.0 * x2y - 3.0 * x3 - 2.0 * x3y + 2.0 * x4
    requires remainder == 2.0 * (xy2 - 2.0 * x2y + x3) - 1.5 * (x2y2 - 2.0 * x3y + x4) + (y3 - 2.0 * xy2 + x2y)
                          - (xy3 - 2.0 * x2y2 + x3y) - 0.5 * (y4 - 2.0 * xy3 + x2y2)
    ensures ry - rx == slope + remainder
  {
  }

  lemma SlopeRange(x: real)
    requires 0.0 <= x <= 1.0
    ensures 0.0 <= Slope(x) <= 1.0
  {
    var xx, y := x * x, 1.0 - x;
    assert Slope(x) == xx * (3.0 - 2.0 * x);
    ProductNonNegative(x, x);
    ProductNonNegative(xx, 3.0 - 2.0 * x);
    var yy := y * y;
    ProductNonNegative(y, y);
    ProductNonNegative(yy, 3.0 - 2.0 * y);
    assert yy == 1.0 - 2.0 * x + xx;
    assert yy * (3.0 - 2.0 * y) == yy + 2.0 * (x * yy);
    assert x * yy == x - 2.0 * xx + x * xx;
  }

  lemma SlopeIncrease(x: real, y: real)
    requires 0.0 <= x <= y <= 1.0
    ensures 0.0 <= Slope(y) - Slope(x) <= 1.5 * (y - x)
  {
    hide Slope;
    var xx, xy, yy, d := x * x, x * y, y * y, y - x;
    SlopeDifference(x, y, xx, xy, yy);
    ChordSlope(x, y, xx, xy, yy);
    var f := 3.0 * (x + y) - 2.0 * (xx + xy + yy);
    ProductNonNegative(d, f);
    ScaleOrder(d, f, 1.5);
  }

  lemma ChordSlope(x: real, y: real, xx: real, xy: real, yy: real)
    requires 0.0 <= x <= y <= 1.0 && xx == x * x && xy == x * y && yy == y * y
    ensures 0.0 <= 3.0 * (x + y) - 2.0 * (xx + xy + yy) <= 1.5
  {
    ProductNonNegative(x, 1.0 - x);
    ProductNonNegative(y, 1.0 - y);
    ProductNonNegative(x, 1.0 - y);
    ProductNonNegative(y, 1.0 - x);
    SquareNonNegative(x + y - 1.0);
    SquareNonNegative(x - y);
    assert (x + y - 1.0) * (x + y - 1.0) == xx + 2.0 * xy + yy - 2.0 * (x + y) + 1.0;
    assert (x - y) * (x - y) == xx - 2.0 * xy + yy;
  }

  lemma SlopeDifference(x: real, y: real, xx: real, xy: real, yy: real)
    requires xx == x * x && xy == x * y && yy == y * y
    ensures Slope(y) - Slope(x) == (y - x) * (3.0 * (x + y) - 2.0 * (xx + xy + yy))
  {
    assert (y - x) * (x + y) == yy - xx;
    assert (y - x) * (xx + xy + yy) == y * yy - x * xx;
  }

  // The ramp is monotone, and at most as steep as the identity.
  lemma RampIncrease(x: real, y: real)
    requires 0.0 <= x <= y <= 1.0
    ensures 0.0 <= Ramp(y) - Ramp(x) <= y - x
  {
    hide Ramp, Slope;
    var q := RampTaylor(x, y);
    var r := RampTaylor(y, x);
    SlopeRange(x);
    SlopeRange(y);
    IncreaseBounds(x, y, Ramp(x), Ramp(y), Slope(x), Slope(y), q, r);
  }

  // Taylor's formula at both ends bounds the increase.
  lemma IncreaseBounds(x: real, y: real, rx: real, ry: real, sx: real, sy: real, q: real, r: real)
    requires x <= y && 0.0 <= sx && sy <= 1.0
    requires Expansion(x, y, rx, ry, sx, q) && Expansion(y, x, ry, rx, sy, r)
    ensures 0.0 <= ry - rx <= y - x
  {
    var d := y - x;
    assert ry - rx >= 0.0 by {
      ProductNonNegative(d, d);
      ProductNonNegative(q, d * d);
      ProductNonNegative(sx, d);
    }
    assert ry - rx <= d by {
      var e := x - y;
      SquareNonNegative(e);
      ProductNonNegative(r, e * e);
      assert sy * e == -(d * sy);
      ScaleOrder(d, sy, 1.0);
    }
  }

  // ----- One joint's way as a sequence of phases -----

  // Time, distance covered and speed of a joint.
  datatype Sample = Sample(time: real, way: real, speed: real)

  function Growth(v: real, d: real): real { v * d }

  function Curvature(A: real, d: real): real { A * (d * d) / 2.0 }

  // From a to b the way grows by at most v times the time, the speed changes by
  // at most A times the time and is the derivative of the way.
  ghost predicate Smooth(v: real, A: real, a: Sample, b: Sample) {
    var d := b.time - a.time;
    && d >= 0.0
    && 0.0 <= b.way - a.way <= Growth(v, d)
    && Abs(b.speed - a.speed) <= Growth(A, d)
    && Abs(b.way - a.way - Growth(a.speed, d)) <= Curvature(A, d)
  }

  lemma SmoothChain(v: real, A: real, a: Sample, b: Sample, c: Sample)
    requires Smooth(v, A, a, b) && Smooth(v, A, b, c)
    ensures Smooth(v, A, a, c)
  {
    hide Growth, Curvature;
    var d, e, g := b.time - a.time, c.time - b.time, b.speed - a.speed;
    GrowthAdds(v, d, e);
    GrowthAdds(A, d, e);
    GrowthAdds(a.speed, d, e);
    GrowthOfDifference(b.speed, a.speed, e);
    assert c.way - a.way - Growth(a.speed, d + e)
           == (b.way - a.way - Growth(a.speed, d)) + (c.way - b.way - Growth(b.speed, e)) + Growth(g, e);
    CurvatureAdds(A, d, e, g);
    assert d + e == c.time - a.time;
  }

  lemma GrowthAdds(v: real, d: real, e: real)
    ensures Growth(v, d + e) == Growth(v, d) + Growth(v, e)
  {
  }

  lemma GrowthOfDifference(v: real, w: real, d: real)
    ensures Growth(v - w, d) == Growth(v, d) - Growth(w, d)
  {
  }

  lemma CurvatureAdds(A: real, d: real, e: real, g: real)
    requires Abs(g) <= Growth(A, d) && e >= 0.0
    ensures Curvature(A, d) + Curvature(A, e) + Abs(Growth(g, e)) <= Curvature(A, d + e)
  {
    SquareOfGap(A, d, e);
    ProductBound(g, A * d, e);
  }

  lemma SquareOfGap(A: real, d: real, e: real)
    ensures A * ((d + e) * (d + e)) == A * (d * d) + 2.0 * (A * d * e) + A * (e * e)
  {
    assert (d + e) * (d + e) == d * d + 2.0 * (d * e) + e * e;
    assert A * (2.0 * (d * e)) == 2.0 * (A * d * e);
  }

  lemma ProductBound(g: real, m: real, e: real)
    requires Abs(g) <= m && e >= 0.0
    ensures -(m * e) <= g * e <= m * e
  {
    ScaleOrder(e, g, m);
    ScaleOrder(e, -m, g);
  }

  // The way in terms of the normalised ramp.
  function SampleAt(p: Profile, D: real, time: real): Sample
    requires 0.0 < p.t1 && p.t2 < p.tf
  {
    if time < p.t1 then Rising(p, time)
    else if time < p.t2 then Cruising(p, time)
    else if time < p.tf then Braking(p, D, time)
    else Sample(time, D, 0.0)
  }

  function Cruising(p: Profile, time: real): Sample {
    Sample(time, Growth(p.speed, 0.5 * p.t1) + Growth(p.speed, time - p.t1), p.speed)
  }

  function RampWay(v: real, L: real, f: real): real { v * L * f }

  function Rising(p: Profile, time: real): Sample
    requires p.t1 != 0.0
  {
    Sample(time, RampWay(p.speed, p.t1, Ramp(time / p.t1)), Growth(p.speed, Slope(time / p.t1)))
  }

  function Braking(p: Profile, D: real, time: real): Sample
    requires p.tf != p.t2
  {
    var d := p.tf - p.t2;
    Sample(time, D - RampWay(p.speed, d, Ramp((p.tf - time) / d)), Growth(p.speed, Slope((p.tf - time) / d)))
  }

  lemma WayStep(v: real, L: real, w: real, d: real, fx: real, fy: real)
    requires v > 0.0 && L > 0.0 && 0.0 <= fy - fx <= w && d == L * w
    ensures 0.0 <= RampWay(v, L, fy) - RampWay(v, L, fx) <= Growth(v, d)
  {
    ProductPositive(v, L);
    ProductNonNegative(v * L, fy - fx);
    ScaleOrder(v * L, fy - fx, w);
  }

  lemma SpeedStep(v: real, A: real, L: real, w: real, d: real, gx: real, gy: real)
    requires v > 0.0 && L * A == 1.5 * v && 0.0 <= gy - gx <= 1.5 * w && d == L * w
    ensures 0.0 <= Growth(v, gy) - Growth(v, gx) <= Growth(A, d)
  {
    ScaleOrder(v, gy - gx, 1.5 * w);
    ProductNonNegative(v, gy - gx);
    assert v * (1.5 * w) == A * (L * w);
  }

  // How far the way of a ramp is from its tangent.
  lemma TangentStep(v: real, A: real, L: real, x: real, y: real, d: real, fx: real, fy: real, gx: real, q: real)
    requires v > 0.0 && L > 0.0 && L * A == 1.5 * v && d == L * (y - x) && Expansion(x, y, fx, fy, gx, q)
    ensures 0.0 <= RampWay(v, L, fy) - RampWay(v, L, fx) - Growth(Growth(v, gx), d) <= Curvature(A, d)
  {
    var w := y - x;
    var ww := w * w;
    SquareNonNegative(w);
    ProductPositive(v, L);
    ProductNonNegative(q, ww);
    ScaleOrder(ww, q, 0.75);
    ProductNonNegative(v * L, q * ww);
    ScaleOrder(v * L, q * ww, 0.75 * ww);
    CurvatureUnits(v, A, L, w, d, ww);
    TangentTerms(v, L, w, d, fx, fy, gx, q * ww);
  }

  lemma CurvatureUnits(v: real, A: real, L: real, w: real, d: real, ww: real)
    requires L * A == 1.5 * v && ww == w * w && d == L * w
    ensures v * L * (0.75 * ww) == Curvature(A, d)
  {
    SquareOfProduct(L, w);
    assert A * ((L * L) * ww) == (L * A) * (L * ww);
    assert (1.5 * v) * (L * ww) == 2.0 * (v * L * (0.75 * ww));
  }

  lemma TangentTerms(v: real, L: real, w: real, d: real, fx: real, fy: real, g: real, r: real)
    requires fy - fx == g * w + r && d == L * w
    ensures RampWay(v, L, fy) - RampWay(v, L, fx) - Growth(Growth(v, g), d) == v * L * r
  {
    assert v * L * (fy - fx) == v * L * (g * w) + v * L * r;
    assert v * L * (g * w) == (v * g) * (L * w);
    assert v * L * (fy - fx) == v * L * fy - v * L * fx;
  }

  lemma UnitRange(s: real, t: real, L: real, x: real, y: real)
    requires L > 0.0 && x == s / L && y == t / L && 0.0 <= s <= t <= L
    ensures 0.0 <= x <= y <= 1.0 && t - s == L * (y - x) && s - t == L * (x - y)
  {
    assert x * L == s && y * L == t;
    CancelFactor(L, 0.0, x);
    CancelFactor(L, x, y);
    CancelFactor(L, y, 1.0);
  }

  lemma RisingIsSmooth(p: Profile, A: real, s: real, t: real)
    requires p.speed > 0.0 && p.t1 > 0.0 && p.t1 * A == 1.5 * p.speed && 0.0 <= s <= t <= p.t1
    ensures Smooth(p.speed, A, Rising(p, s), Rising(p, t))
  {
    hide Ramp, Slope, Growth, Curvature, RampWay, Expansion;
    var v, L := p.speed, p.t1;
    var x, y := s / L, t / L;
    UnitRange(s, t, L, x, y);
    RampIncrease(x, y);
    SlopeIncrease(x, y);
    var q := RampTaylor(x, y);
    WayStep(v, L, y - x, t - s, Ramp(x), Ramp(y));
    SpeedStep(v, A, L, y - x, t - s, Slope(x), Slope(y));
    TangentStep(v, A, L, x, y, t - s, Ramp(x), Ramp(y), Slope(x), q);
  }

  lemma Mirrored(v: real, A: real, d: real)
    ensures Growth(v, -d) == -Growth(v, d) && Curvature(A, -d) == Curvature(A, d)
  {
    assert (-d) * (-d) == d * d;
  }

  lemma BrakingIsSmooth(p: Profile, A: real, D: real, s: real, t: real)
    requires p.speed > 0.0 && p.tf > p.t2 && (p.tf - p.t2) * A == 1.5 * p.speed && p.t2 <= s <= t <= p.tf
    ensures Smooth(p.speed, A, Braking(p, D, s), Braking(p, D, t))
  {
    hide Ramp, Slope, Growth, Curvature, RampWay, Expansion;
    var v, L := p.speed, p.tf - p.t2;
    var x, y := (p.tf - t) / L, (p.tf - s) / L;
    UnitRange(p.tf - t, p.tf - s, L, x, y);
    RampIncrease(x, y);
    SlopeIncrease(x, y);
    var q := RampTaylor(y, x);
    WayStep(v, L, y - x, t - s, Ramp(x), Ramp(y));
    SpeedStep(v, A, L, y - x, t - s, Slope(x), Slope(y));
    TangentStep(v, A, L, y, x, s - t, Ramp(y), Ramp(x), Slope(y), q);
    Mirrored(Growth(v, Slope(y)), A, t - s);
  }

  lemma CruisingIsSmooth(p: Profile, A: real, s: real, t: real)
    requires p.speed > 0.0 && A >= 0.0 && s <= t
    ensures Smooth(p.speed, A, Cruising(p, s), Cruising(p, t))
  {
    var v, d := p.speed, t - s;
    assert v * (t - p.t1) == v * (s - p.t1) + v * d;
    ProductNonNegative(v, d);
    ProductNonNegative(A, d);
    ProductNonNegative(d, d);
    ProductNonNegative(A, d * d);
  }

  lemma RestIsSmooth(v: real, A: real, D: real, s: real, t: real)
    requires v > 0.0 && A >= 0.0 && s <= t
    ensures Smooth(v, A, Sample(s, D, 0.0), Sample(t, D, 0.0))
  {
    var d := t - s;
    ProductNonNegative(v, d);
    ProductNonNegative(A, d);
    ProductNonNegative(d, d);
    ProductNonNegative(A, d * d);
  }

  lemma SmoothWider(v: real, A: real, B: real, a: Sample, b: Sample)
    requires Smooth(v, A, a, b) && A <= B
    ensures Smooth(v, B, a, b)
  {
    var d := b.time - a.time;
    ScaleOrder(d, A, B);
    ProductNonNegative(d, d);
    ScaleOrder(d * d, A, B);
  }

  lemma RampStart()
    ensures Ramp(0.0) == 0.0 && Slope(0.0) == 0.0
  {
    assert Cube(0.0) == 0.0;
  }

  lemma RampTop()
    ensures Ramp(1.0) == 0.5
  {
    assert Cube(1.0) == 1.0;
  }

  lemma SlopeTop()
    ensures Slope(1.0) == 1.0
  {
  }

  lemma RampUnits(v: real, L: real)
    ensures Growth(v, 0.0) == 0.0 && Growth(v, 1.0) == v
    ensures RampWay(v, L, 0.0) == 0.0 && RampWay(v, L, 0.5) == Growth(v, 0.5 * L)
  {
  }

  // ----- The phases fit together -----

  // Value and slope of neighbouring phases agree at 0, t1, t2 and tf.
  lemma StartsAtRest(p: Profile)
    requires p.t1 > 0.0
    ensures Rising(p, 0.0) == Sample(0.0, 0.0, 0.0)
  {
    hide Ramp, Slope, Growth, RampWay;
    RampStart();
    RampUnits(p.speed, p.t1);
    FractionEnds(p.t1);
  }

  lemma RampJoinsCruise(p: Profile)
    requires p.t1 > 0.0
    ensures Rising(p, p.t1) == Cruising(p, p.t1)
  {
    hide Ramp, Slope, Growth, RampWay;
    RampTop();
    SlopeTop();
    RampUnits(p.speed, p.t1);
    FractionEnds(p.t1);
  }

  lemma CruiseJoinsBraking(A: real, B: real, D: real, p: Profile)
    requires WellPhased(A, B, D, p.speed, p.t1, p.t2, p.tf)
    ensures Cruising(p, p.t2) == Braking(p, D, p.t2)
  {
    hide Ramp, Slope, Growth, RampWay, WellPhased;
    PhaseOrder(A, B, D, p);
    RampTop();
    SlopeTop();
    RampUnits(p.speed, p.tf - p.t2);
    WholeWay(A, B, D, p.speed, p.t1, p.t2, p.tf);
    FractionEnds(p.tf - p.t2);
  }

  lemma BrakingEndsAtRest(p: Profile, D: real)
    requires p.tf > p.t2
    ensures Braking(p, D, p.tf) == Sample(p.tf, D, 0.0)
  {
    hide Ramp, Slope, Growth, RampWay;
    RampStart();
    RampUnits(p.speed, p.tf - p.t2);
    FractionEnds(p.tf - p.t2);
  }

  lemma FractionEnds(L: real)
    requires L > 0.0
    ensures L / L == 1.0 && 0.0 / L == 0.0
  {
  }

  lemma WholeWay(A: real, B: real, D: real, v: real, t1: real, t2: real, tf: real)
    requires WellPhased(A, B, D, v, t1, t2, tf)
    ensures Growth(v, 0.5 * t1) + Growth(v, t2 - t1) + Growth(v, 0.5 * (tf - t2)) == D
  {
  }

  lemma PhaseOrder(A: real, B: real, D: real, p: Profile)
    requires WellPhased(A, B, D, p.speed, p.t1, p.t2, p.tf)
    ensures p.speed > 0.0 && 0.0 < p.t1 <= p.t2 < p.tf && p.t1 * A == 1.5 * p.speed
            && (p.tf - p.t2) * B == 1.5 * p.speed
  {
  }

  lemma Joins(A: real, B: real, D: real, p: Profile)
    requires WellPhased(A, B, D, p.speed, p.t1, p.t2, p.tf)
    ensures SampleAt(p, D, 0.0) == Sample(0.0, 0.0, 0.0)
    ensures SampleAt(p, D, p.t1) == Rising(p, p.t1)
    ensures SampleAt(p, D, p.t2) == Cruising(p, p.t2)
    ensures SampleAt(p, D, p.tf) == Braking(p, D, p.tf)
  {
    hide Rising, Cruising, Braking, WellPhased;
    PhaseOrder(A, B, D, p);
    StartsAtRest(p);
    RampJoinsCruise(p);
    CruiseJoinsBraking(A, B, D, p);
    BrakingEndsAtRest(p, D);
  }

  // Over the whole run, for any two times in any two phases.
  lemma ProfileIsSmooth(A: real, B: real, D: real, p: Profile, s: real, t: real)
    requires A > 0.0 && B > 0.0 && WellPhased(A, B, D, p.speed, p.t1, p.t2, p.tf) && 0.0 <= s <= t
    ensures Smooth(p.speed, Max(A, B), SampleAt(p, D, s), SampleAt(p, D, t))
  {
    hide Smooth, Rising, Cruising, Braking, WellPhased;
    PhaseOrder(A, B, D, p);
    Joins(A, B, D, p);
    var M := Max(A, B);
    if s < p.t1 {
      var m := Min(t, p.t1);
      RisingIsSmooth(p, A, s, m);
      SmoothWider(p.speed, A, M, SampleAt(p, D, s), SampleAt(p, D, m));
      if m < t {
        FromCruising(A, B, D, p, m, t);
        SmoothChain(p.speed, M, SampleAt(p, D, s), SampleAt(p, D, m), SampleAt(p, D, t));
      }
    } else {
      FromCruising(A, B, D, p, s, t);
    }
  }

  lemma FromCruising(A: real, B: real, D: real, p: Profile, s: real, t: real)
    requires A > 0.0 && B > 0.0 && WellPhased(A, B, D, p.speed, p.t1, p.t2, p.tf) && p.t1 <= s <= t
    ensures Smooth(p.speed, Max(A, B), SampleAt(p, D, s), SampleAt(p, D, t))
  {
    hide Smooth, Rising, Cruising, Braking, WellPhased;
    PhaseOrder(A, B, D, p);
    Joins(A, B, D, p);
    var M := Max(A, B);
    if s < p.t2 {
      var m := Min(t, p.t2);
      CruisingIsSmooth(p, M, s, m);
      if m < t {
        FromBraking(A, B, D, p, m, t);
        SmoothChain(p.speed, M, SampleAt(p, D, s), SampleAt(p, D, m), SampleAt(p, D, t));
      }
    } else {
      FromBraking(A, B, D, p, s, t);
    }
  }

  lemma FromBraking(A: real, B: real, D: real, p: Profile, s: real, t: real)
    requires A > 0.0 && B > 0.0 && WellPhased(A, B, D, p.speed, p.t1, p.t2, p.tf) && p.t2 <= s <= t
    ensures Smooth(p.speed, Max(A, B), SampleAt(p, D, s), SampleAt(p, D, t))
  {
    hide Smooth, Rising, Cruising, Braking, WellPhased;
    PhaseOrder(A, B, D, p);
    Joins(A, B, D, p);
    var M := Max(A, B);
    if s < p.tf {
      var m := Min(t, p.tf);
      BrakingIsSmooth(p, B, D, s, m);
      SmoothWider(p.speed, B, M, SampleAt(p, D, s), SampleAt(p, D, m));
      if m < t {
        RestIsSmooth(p.speed, M, D, m, t);
        SmoothChain(p.speed, M, SampleAt(p, D, s), SampleAt(p, D, m), SampleAt(p, D, t));
      }
    } else {
      RestIsSmooth(p.speed, M, D, s, t);
    }
  }

  // ----- The commanded offset is the signed way -----

  lemma RisingFormula(v: real, s: real, t1: real, time: real, x: real)
    requires t1 > 0.0 && x == time / t1
    ensures Cube(t1) > 0.0 && RisingOffset(t1, time, v, s) == s * RampWay(v, t1, Ramp(x))
  {
    assert time == x * t1;
    var c3, x3 := Cube(t1), Cube(x);
    CubePositive(t1);
    var k := -1.0 / c3;
    assert k * c3 == -1.0;
    assert Cube(time) == x3 * c3 by { CubeOfProduct(x, t1); }
    var u := 0.5 * time - t1;
    assert u == t1 * (0.5 * x - 1.0);
    RisingProduct(k, c3, v, s, u, x3);
    assert (-1.0) * (v * s * u * x3) == s * (v * t1 * (x3 - x * x3 / 2.0)) by { RisingUnits(v, s, t1, x, x3, u); }
  }

  lemma CubeOfProduct(x: real, y: real)
    ensures Cube(x * y) == Cube(x) * Cube(y)
  {
    SquareOfProduct(x, y);
    var p, q := x * x, y * y;
    assert (x * y) * (x * y) * (x * y) == (p * q) * (x * y);
    assert (p * q) * (x * y) == (p * x) * (q * y);
  }

  lemma RisingProduct(k: real, c3: real, v: real, s: real, u: real, x3: real)
    requires k * c3 == -1.0
    ensures k * v * s * u * (x3 * c3) == (-1.0) * (v * s * u * x3)
  {
    var w := v * s * u * x3;
    assert k * v * s * u * (x3 * c3) == (k * c3) * w;
  }

  lemma RisingUnits(v: real, s: real, t1: real, x: real, x3: real, u: real)
    requires u == t1 * (0.5 * x - 1.0)
    ensures (-1.0) * (v * s * u * x3) == s * (v * t1 * (x3 - x * x3 / 2.0))
  {
    var f := x3 - x * x3 / 2.0;
    assert (0.5 * x - 1.0) * x3 == -f;
    assert u * x3 == t1 * ((0.5 * x - 1.0) * x3);
    assert v * s * u * x3 == (v * s) * (u * x3);
    assert (v * s) * (t1 * (-f)) == -(s * (v * t1 * f));
  }

  lemma BrakingFormula(v: real, s: real, L: real, delta: real, D: real, rest: real, a: real, b: real, c: real, x: real)
    requires L > 0.0 && x == rest / L && delta == s * D
    requires a == -rest - L && b == L - rest && c == L - 2.0 * rest
    ensures Cube(L) > 0.0 && delta + BrakingOffset(L, a, b, c, v, s) == s * (D - RampWay(v, L, Ramp(x)))
  {
    assert rest == x * L;
    var c3, y := Cube(L), 1.0 - x;
    CubePositive(L);
    var k := 1.0 / c3;
    assert k * c3 == 1.0;
    assert b == y * L;
    CubeOfProduct(y, L);
    var y3 := Cube(y);
    assert a == -((1.0 + x) * L);
    BrakingProduct(k, c3, x, L, a, y3);
    assert c == L * (1.0 - 2.0 * x);
    RampMirror(x, y, y3);
    BrakingUnits(v, s, L, D, (1.0 + x) * y3, x, c, Ramp(x));
  }

  lemma BrakingProduct(k: real, c3: real, x: real, L: real, a: real, y3: real)
    requires k * c3 == 1.0 && a == -((1.0 + x) * L)
    ensures k * a * (y3 * c3) == -(L * ((1.0 + x) * y3))
  {
    assert k * a * (y3 * c3) == (k * c3) * (a * y3);
    assert a * y3 == -(L * ((1.0 + x) * y3));
  }

  lemma RampMirror(x: real, y: real, y3: real)
    requires y == 1.0 - x && y3 == Cube(y)
    ensures (1.0 + x) * y3 - (1.0 - 2.0 * x) == 2.0 * Ramp(x)
  {
    var xx, x3 := x * x, Cube(x);
    assert y * y == 1.0 - 2.0 * x + xx;
    assert y3 == 1.0 - 3.0 * x + 3.0 * xx - x3 by {
      assert (1.0 - 2.0 * x + xx) * (1.0 - x) == 1.0 - 2.0 * x + xx - x + 2.0 * xx - xx * x;
    }
    assert (1.0 + x) * y3 == y3 + x * y3;
    assert x * y3 == x - 3.0 * xx + 3.0 * x3 - x * x3;
  }

  lemma BrakingUnits(v: real, s: real, L: real, D: real, m: real, x: real, c: real, f: real)
    requires c == L * (1.0 - 2.0 * x) && m - (1.0 - 2.0 * x) == 2.0 * f
    ensures s * D + 0.5 * (-(L * m) + c) * v * s == s * (D - v * L * f)
  {
    assert L * m - c == L * (2.0 * f);
    assert 0.5 * (L * m - c) == L * f;
    assert (L * f) * v * s == s * (v * L * f);
    assert s * (D - v * L * f) == s * D - s * (v * L * f);
  }

  lemma DesiredIsSignedWay(j: Joint, p: Profile, time: real)
    requires j.Moves() && time >= 0.0
    requires WellPhased(j.ddqMaxStart, j.ddqMaxGoal, Abs(j.deltaQ), p.speed, p.t1, p.t2, p.tf)
    requires p.q1 == Sign(j.deltaQ) * (0.5 * p.speed * p.t1)
    ensures DesiredDelta(j, p, time) == Sign(j.deltaQ) * SampleAt(p, Abs(j.deltaQ), time).way
  {
    var s, D, L := Sign(j.deltaQ), Abs(j.deltaQ), p.tf - p.t2;
    assert j.deltaQ == s * D;
    assert 0.0 < p.t1 <= p.t2 < p.tf;
    hide Abs, Sign, Cube, Ramp, RampWay, Slope, WellPhased, RisingOffset, BrakingOffset;
    if time < p.t1 {
      RisingFormula(p.speed, s, p.t1, time, time / p.t1);
    } else if time < p.t2 {
      CruisingFormula(p.speed, s, p.t1, time);
    } else if time < p.tf {
      var td := p.t2 - p.t1;
      BrakingFormula(p.speed, s, L, j.deltaQ, D, p.tf - time, time - p.t1 - 2.0 * L - td, time - p.t1 - td,
                     2.0 * time - 2.0 * p.t1 - L - 2.0 * td, (p.tf - time) / L);
    }
  }

  lemma CruisingFormula(v: real, s: real, t1: real, time: real)
    ensures s * (0.5 * v * t1) + (time - t1) * v * s == s * (Growth(v, 0.5 * t1) + Growth(v, time - t1))
  {
  }

  // ----- The guarantees for one joint -----

  // The commanded offset grows monotonically from zero to delta, without
  // overshoot, at most at the synchronised speed, and with an acceleration of at
  // most the larger of the joint's two limits, for any two times in any phases.
  lemma JointMotionIsLimited(j: Joint, p: Profile, s: real, t: real)
    requires j.Valid() && j.Moves() && 0.0 <= s <= t
    requires WellPhased(j.ddqMaxStart, j.ddqMaxGoal, Abs(j.deltaQ), p.speed, p.t1, p.t2, p.tf)
    requires p.q1 == Sign(j.deltaQ) * (0.5 * p.speed * p.t1)
    ensures var sign, D := Sign(j.deltaQ), Abs(j.deltaQ);
            var a, b := SampleAt(p, D, s), SampleAt(p, D, t);
            && DesiredDelta(j, p, s) == sign * a.way && DesiredDelta(j, p, t) == sign * b.way
            && 0.0 <= a.way <= b.way <= D
            && Smooth(p.speed, Max(j.ddqMaxStart, j.ddqMaxGoal), a, b)
    ensures DesiredDelta(j, p, 0.0) == 0.0
    ensures t >= p.tf ==> DesiredDelta(j, p, t) == j.deltaQ
    ensures t < p.tf <==> !JointFinished(j, p, t)
  {
    hide Abs, Sign, DesiredDelta, SampleAt, WellPhased, Joint.Moves;
    var A, B, D := j.ddqMaxStart, j.ddqMaxGoal, Abs(j.deltaQ);
    PhaseOrder(A, B, D, p);
    DesiredIsSignedWay(j, p, 0.0);
    DesiredIsSignedWay(j, p, s);
    DesiredIsSignedWay(j, p, t);
    Joins(A, B, D, p);
    var z := Max(t, p.tf);
    ProfileIsSmooth(A, B, D, p, 0.0, s);
    ProfileIsSmooth(A, B, D, p, s, t);
    ProfileIsSmooth(A, B, D, p, t, z);
    hide Growth, Curvature;
    EndsAtGoal(j, p, z);
    FinishedExactly(j, p, t);
    if t >= p.tf {
      EndsAtGoal(j, p, t);
    }
  }

  lemma EndsAtGoal(j: Joint, p: Profile, t: real)
    requires 0.0 < p.t1 <= p.t2 < p.tf <= t && j.Moves()
    ensures SampleAt(p, Abs(j.deltaQ), t).way == Abs(j.deltaQ) && DesiredDelta(j, p, t) == j.deltaQ
  {
  }

  lemma FinishedExactly(j: Joint, p: Profile, t: real)
    requires 0.0 < p.t1 <= p.t2 < p.tf && j.Moves()
    ensures JointFinished(j, p, t) <==> t >= p.tf
  {
  }
}
