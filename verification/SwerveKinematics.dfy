/** The kinematics of a base with two steered wheels: franka_ros2/franka_mobile/src/swerve_kinematics.cpp. */
module SwerveKinematics {
  import opened Reals

  datatype Vec2 = Vec2(x: real, y: real)

  // The velocity of the base: translation and rotation.
  datatype BodyTwist = BodyTwist(vx: real, vy: real, wz: real)

  const EPS := 0.001

  function Square(x: real): real { x * x }

  function Length2(x: real, y: real): real { Square(x) + Square(y) }

  function SquaredLength(v: Vec2): real { Length2(v.x, v.y) }

  function Minus(a: Vec2, b: Vec2): Vec2 { Vec2(a.x - b.x, a.y - b.y) }

  // The library functions; atan2 gives the direction of a vector that is not zero.
  datatype Library = Library(sqrt: real -> real, sin: real -> real, cos: real -> real, atan2: (real, real) -> real,
                             halfPi: real) {
    ghost predicate Sound() {
      && IsSquareRoot(sqrt) && halfPi > 0.0
      && (forall angle :: cos(angle) * cos(angle) + sin(angle) * sin(angle) == 1.0)
      && (forall y: real, x: real :: PointsAlong(atan2(y, x), x, y))
    }

    ghost predicate PointsAlong(angle: real, x: real, y: real) {
      var n := sqrt(Length2(x, y));
      n > 0.0 ==> n * cos(angle) == x && n * sin(angle) == y
    }
  }

  function Cross2(v: Vec2, r: Vec2): real { v.y * r.x - v.x * r.y }

  // The velocity of the point r of a base moving with a twist.
  function PointVelocity(t: BodyTwist, r: Vec2): Vec2 { Vec2(t.vx - t.wz * r.y, t.vy + t.wz * r.x) }

  function WheelVelocity(lib: Library, radius: real, angle: real, speed: real): Vec2 {
    Vec2(speed * radius * lib.cos(angle), speed * radius * lib.sin(angle))
  }

  // forwardKinematics, from the velocities of the wheels.
  function Forward(r0: Vec2, r1: Vec2, v0: Vec2, v1: Vec2): BodyTwist
    requires SquaredLength(r0) + SquaredLength(r1) != 0.0
  {
    BodyTwist((v0.x + v1.x) / 2.0, (v0.y + v1.y) / 2.0,
              (Cross2(v0, r0) + Cross2(v1, r1)) / (SquaredLength(r0) + SquaredLength(r1)))
  }

  // The steering angle and speed of one wheel, given its angle so far.
  function WheelCommand(lib: Library, radius: real, r: Vec2, t: BodyTwist, previous: real): (real, real)
    requires radius != 0.0
  {
    var v := PointVelocity(t, r);
    var speed := lib.sqrt(SquaredLength(v)) / radius;
    var angle := if speed > EPS then lib.atan2(v.y, v.x) else previous;
    if Abs(angle - previous) > lib.halfPi then (if speed > EPS then lib.atan2(-v.y, -v.x) else previous, -speed)
    else (angle, speed)
  }

  class Kinematics {
    const lib: Library
    const wheelPositions: seq<Vec2>
    const wheelRadius: real
    var steeringAngles: seq<real>
    var wheelSpeeds: seq<real>

    ghost predicate Valid()
      reads this
    {
      lib.Sound() && |wheelPositions| == 2 && wheelRadius > 0.0 && |steeringAngles| == 2 && |wheelSpeeds| == 2
    }

    constructor (lib: Library, positions: seq<Vec2>, radius: real)
      requires lib.Sound() && |positions| == 2 && radius >= 0.001
      requires forall p :: p in positions ==> Abs(p.x) > 0.001 || Abs(p.y) > 0.001
      ensures Valid() && wheelPositions == positions && wheelRadius == radius
    {
      this.lib, wheelPositions, wheelRadius, steeringAngles, wheelSpeeds := lib, positions, radius, [0.0, 0.0],
          [0.0, 0.0];
    }

    // The loop over the wheels.
    method InverseKinematics(t: BodyTwist) returns (angles: seq<real>, speeds: seq<real>)
      requires Valid()
      modifies this`steeringAngles, this`wheelSpeeds
      ensures Valid() && steeringAngles == angles && wheelSpeeds == speeds && |angles| == |speeds| == 2
      ensures forall i :: 0 <= i < 2 ==>
                (angles[i], speeds[i]) == WheelCommand(lib, wheelRadius, wheelPositions[i], t, old(steeringAngles)[i])
    {
      hide Library.Sound, SquaredLength;
      ghost var before := steeringAngles;
      for i := 0 to 2
        invariant Valid()
        invariant forall k :: 0 <= k < 2 ==>
                    if k < i then (steeringAngles[k], wheelSpeeds[k])
                        == WheelCommand(lib, wheelRadius, wheelPositions[k], t, before[k])
                    else steeringAngles[k] == before[k]
      {
        var v := PointVelocity(t, wheelPositions[i]);
        var speed := lib.sqrt(SquaredLength(v)) / wheelRadius;
        var angle := if speed > EPS then lib.atan2(v.y, v.x) else steeringAngles[i];
        if Abs(angle - steeringAngles[i]) > lib.halfPi {
          angle := if speed > EPS then lib.atan2(-v.y, -v.x) else steeringAngles[i];
          speed := -speed;
        }
        steeringAngles, wheelSpeeds := steeringAngles[i := angle], wheelSpeeds[i := speed];
      }
      angles, speeds := steeringAngles, wheelSpeeds;
    }
  }

  // ----- The wheels do what was asked -----

  lemma OppositeDirection(lib: Library, v: Vec2)
    requires lib.Sound() && lib.sqrt(SquaredLength(v)) > 0.0
    ensures var n, a := lib.sqrt(SquaredLength(v)), lib.atan2(-v.y, -v.x);
            -n * lib.cos(a) == v.x && -n * lib.sin(a) == v.y
  {
    assert Length2(-v.x, -v.y) == SquaredLength(v);
    var a := lib.atan2(-v.y, -v.x);
    assert lib.PointsAlong(a, -v.x, -v.y);
  }

  lemma Direction(lib: Library, v: Vec2)
    requires lib.Sound() && lib.sqrt(SquaredLength(v)) > 0.0
    ensures var n, a := lib.sqrt(SquaredLength(v)), lib.atan2(v.y, v.x);
            n * lib.cos(a) == v.x && n * lib.sin(a) == v.y
  {
    var a := lib.atan2(v.y, v.x);
    assert lib.PointsAlong(a, v.x, v.y);
  }

  // A wheel that has to turn faster than eps gets exactly the velocity of its point
  // of the base, whatever its previous steering angle, so also when it is flipped.
  lemma WheelFollowsPoint(lib: Library, radius: real, r: Vec2, t: BodyTwist, previous: real)
    requires lib.Sound() && radius > 0.0 && lib.sqrt(SquaredLength(PointVelocity(t, r))) / radius > EPS
    ensures var (angle, speed) := WheelCommand(lib, radius, r, t, previous);
            WheelVelocity(lib, radius, angle, speed) == PointVelocity(t, r)
  {
    hide Library.Sound, SquaredLength, PointVelocity, WheelVelocity;
    var v := PointVelocity(t, r);
    var n := lib.sqrt(SquaredLength(v));
    var speed := n / radius;
    PositiveQuotient(n, radius);
    Direction(lib, v);
    OppositeDirection(lib, v);
    WheelVelocityOf(lib, radius, lib.atan2(v.y, v.x), speed, n);
    WheelVelocityOf(lib, radius, lib.atan2(-v.y, -v.x), -speed, -n);
  }

  lemma WheelVelocityOf(lib: Library, radius: real, angle: real, speed: real, n: real)
    requires speed * radius == n
    ensures WheelVelocity(lib, radius, angle, speed) == Vec2(n * lib.cos(angle), n * lib.sin(angle))
  {
  }

  // A wheel runs backwards exactly if the direct steering angle is further than a
  // quarter turn from the previous one, the difference being taken as it is.
  lemma ReversesExactly(lib: Library, radius: real, r: Vec2, t: BodyTwist, previous: real)
    requires lib.Sound() && radius > 0.0
    ensures var v := PointVelocity(t, r);
            WheelCommand(lib, radius, r, t, previous).1 < 0.0
            <==> lib.sqrt(SquaredLength(v)) / radius > EPS && Abs(lib.atan2(v.y, v.x) - previous) > lib.halfPi
  {
    var n := lib.sqrt(SquaredLength(PointVelocity(t, r)));
    SquareNonNegative(PointVelocity(t, r).x);
    SquareNonNegative(PointVelocity(t, r).y);
    assert n >= 0.0 && lib.halfPi > 0.0;
    hide Library.Sound, SquaredLength, PointVelocity;
    assert n / radius >= 0.0;
  }

  lemma PositiveQuotient(n: real, radius: real)
    requires radius > 0.0 && n / radius > 0.0
    ensures n > 0.0 && n / radius * radius == n && (-(n / radius)) * radius == -n
  {
    var q := n / radius;
    assert n == q * radius;
    ProductPositive(q, radius);
  }

  // A slower wheel keeps its steering angle; its velocity is off by at most 2*eps*radius.
  lemma SlowWheelIsClose(lib: Library, radius: real, r: Vec2, t: BodyTwist, previous: real)
    requires lib.Sound() && radius > 0.0 && lib.sqrt(SquaredLength(PointVelocity(t, r))) / radius <= EPS
    ensures var (angle, speed) := WheelCommand(lib, radius, r, t, previous);
            && angle == previous
            && SquaredLength(Minus(WheelVelocity(lib, radius, angle, speed), PointVelocity(t, r))) <= Allowance(radius)
  {
    var v := PointVelocity(t, r);
    var n := lib.sqrt(SquaredLength(v));
    var (angle, speed) := WheelCommand(lib, radius, r, t, previous);
    SquareNonNegative(v.x);
    SquareNonNegative(v.y);
    assert n >= 0.0 && n * n == SquaredLength(v);
    assert speed * radius == n;
    var c, s := lib.cos(previous), lib.sin(previous);
    assert c * c + s * s == 1.0;
    hide Library.Sound, IsSquareRoot, PointVelocity;
    SlowDifference(n, v.x, v.y, c, s);
    assert n <= EPS * radius by { BoundedQuotient(n, radius); }
    SlowAllowance(n, radius);
  }

  // (2*eps*radius)^2
  function Allowance(radius: real): real { 4.0 * ((EPS * radius) * (EPS * radius)) }

  lemma BoundedQuotient(n: real, radius: real)
    requires radius > 0.0 && n / radius <= EPS
    ensures n <= EPS * radius
  {
    var q := n / radius;
    assert n == q * radius;
    ScaleOrder(radius, q, EPS);
  }

  lemma SlowAllowance(n: real, radius: real)
    requires 0.0 <= n <= EPS * radius
    ensures 4.0 * (n * n) <= Allowance(radius)
  {
    var m := EPS * radius;
    ScaleOrder(n, n, m);
    ScaleOrder(m, n, m);
  }

  lemma SlowDifference(n: real, x: real, y: real, c: real, s: real)
    requires n * n == Length2(x, y) && c * c + s * s == 1.0
    ensures Length2(n * c - x, n * s - y) <= 4.0 * (n * n)
  {
    var p, q := n * c, n * s;
    assert p * p + q * q == n * n by {
      SquareOfProduct(n, c);
      SquareOfProduct(n, s);
      assert (n * n) * (c * c) + (n * n) * (s * s) == (n * n) * (c * c + s * s);
    }
    SquareNonNegative(p + x);
    SquareNonNegative(q + y);
    assert (p - x) * (p - x) + (p + x) * (p + x) == 2.0 * (p * p) + 2.0 * (x * x);
    assert (q - y) * (q - y) + (q + y) * (q + y) == 2.0 * (q * q) + 2.0 * (y * y);
  }

  // ----- Forward after inverse -----

  ghost predicate Centered(r0: Vec2, r1: Vec2) { r0.x + r1.x == 0.0 && r0.y + r1.y == 0.0 }

  lemma CrossOfPoint(t: BodyTwist, r: Vec2)
    ensures Cross2(PointVelocity(t, r), r) == t.vy * r.x - t.vx * r.y + t.wz * SquaredLength(r)
  {
    assert (t.vy + t.wz * r.x) * r.x == t.vy * r.x + t.wz * (r.x * r.x);
    assert (t.vx - t.wz * r.y) * r.y == t.vx * r.y - t.wz * (r.y * r.y);
  }

  // With the wheels opposite each other, the twist of a rigid motion is recovered.
  lemma ForwardRecovers(r0: Vec2, r1: Vec2, t: BodyTwist)
    requires Centered(r0, r1) && SquaredLength(r0) + SquaredLength(r1) != 0.0
    ensures Forward(r0, r1, PointVelocity(t, r0), PointVelocity(t, r1)) == t
  {
    var N := SquaredLength(r0) + SquaredLength(r1);
    CrossOfPoint(t, r0);
    CrossOfPoint(t, r1);
    assert r1 == Vec2(-r0.x, -r0.y);
    assert t.wz * r0.y + t.wz * r1.y == 0.0 && t.wz * r0.x + t.wz * r1.x == 0.0;
    assert t.vy * r0.x + t.vy * r1.x == 0.0 && t.vx * r0.y + t.vx * r1.y == 0.0;
    var w := Cross2(PointVelocity(t, r0), r0) + Cross2(PointVelocity(t, r1), r1);
    assert w == t.wz * N;
    assert w / N == t.wz by { assert (t.wz * N) / N == t.wz; }
    hide SquaredLength;
  }

  // Forward kinematics after inverse kinematics returns the commanded twist exactly
  // whenever both wheels turn faster than eps, for any steering history.
  lemma ForwardAfterInverse(lib: Library, radius: real, r0: Vec2, r1: Vec2, t: BodyTwist, previous0: real,
                            previous1: real)
    requires lib.Sound() && radius > 0.0 && Centered(r0, r1) && SquaredLength(r0) + SquaredLength(r1) != 0.0
    requires lib.sqrt(SquaredLength(PointVelocity(t, r0))) / radius > EPS
             && lib.sqrt(SquaredLength(PointVelocity(t, r1))) / radius > EPS
    ensures var (a0, s0) := WheelCommand(lib, radius, r0, t, previous0);
            var (a1, s1) := WheelCommand(lib, radius, r1, t, previous1);
            Forward(r0, r1, WheelVelocity(lib, radius, a0, s0), WheelVelocity(lib, radius, a1, s1)) == t
  {
    hide *;
    WheelFollowsPoint(lib, radius, r0, t, previous0);
    WheelFollowsPoint(lib, radius, r1, t, previous1);
    ForwardRecovers(r0, r1, t);
  }

  // ----- Forward kinematics as least squares -----

  // The sum of squares that forwardKinematicsQr minimises.
  function Residual(r0: Vec2, r1: Vec2, v0: Vec2, v1: Vec2, t: BodyTwist): real {
    SquaredLength(Minus(v0, PointVelocity(t, r0))) + SquaredLength(Minus(v1, PointVelocity(t, r1)))
  }

  // The error of forward kinematics on the first wheel, opposite to that on the
  // second and across no direction in which the base could turn.
  lemma NormalEquations(r0: Vec2, r1: Vec2, v0: Vec2, v1: Vec2)
    requires Centered(r0, r1) && SquaredLength(r0) + SquaredLength(r1) != 0.0
    ensures var f := Forward(r0, r1, v0, v1);
            var e := Minus(v0, PointVelocity(f, r0));
            Minus(v1, PointVelocity(f, r1)) == Vec2(-e.x, -e.y) && Cross2(e, r0) == 0.0
  {
    hide SquaredLength, Cross2;
    var f := Forward(r0, r1, v0, v1);
    var e := Minus(v0, PointVelocity(f, r0));
    assert r1 == Vec2(-r0.x, -r0.y);
    OppositeErrors(r0, r1, v0, v1, f, e);
    TurnRate(r0, v0, v1, f.wz);
    CrossIsZero(v0, v1, r0, f.wz, e);
  }

  lemma OppositeErrors(r0: Vec2, r1: Vec2, v0: Vec2, v1: Vec2, f: BodyTwist, e: Vec2)
    requires Centered(r0, r1) && f.vx == (v0.x + v1.x) / 2.0 && f.vy == (v0.y + v1.y) / 2.0
    requires e == Minus(v0, PointVelocity(f, r0))
    ensures Minus(v1, PointVelocity(f, r1)) == Vec2(-e.x, -e.y)
  {
    OppositeProducts(f.wz, r0.x, r0.y, r1.x, r1.y);
  }

  lemma OppositeProducts(w: real, x: real, y: real, x': real, y': real)
    requires x' == -x && y' == -y
    ensures w * x' == -(w * x) && w * y' == -(w * y)
  {
  }

  lemma TurnRate(r: Vec2, v0: Vec2, v1: Vec2, w: real)
    requires var s := Vec2(-r.x, -r.y);
             SquaredLength(r) + SquaredLength(s) != 0.0
                 && w == (Cross2(v0, r) + Cross2(v1, s)) / (SquaredLength(r) + SquaredLength(s))
    ensures w * (SquaredLength(r) + SquaredLength(r)) == Cross2(v0, r) - Cross2(v1, r)
  {
    OppositeLength(r.x, r.y);
    OppositeCross(v1.x, v1.y, r.x, r.y);
    hide Length2;
  }

  lemma CrossIsZero(v0: Vec2, v1: Vec2, r: Vec2, w: real, e: Vec2)
    requires w * (SquaredLength(r) + SquaredLength(r)) == Cross2(v0, r) - Cross2(v1, r)
    requires e == Minus(v0, PointVelocity(BodyTwist((v0.x + v1.x) / 2.0, (v0.y + v1.y) / 2.0, w), r))
    ensures Cross2(e, r) == 0.0
  {
    CrossOfError(v0.x, v0.y, v1.x, v1.y, r.x, r.y, w, SquaredLength(r), e.x, e.y);
  }

  lemma OppositeLength(x: real, y: real)
    ensures Length2(-x, -y) == Length2(x, y)
  {
  }

  lemma OppositeCross(vx: real, vy: real, x: real, y: real)
    ensures vy * -x - vx * -y == -(vy * x - vx * y)
  {
  }

  lemma CrossOfError(ax: real, ay: real, bx: real, cy: real, x: real, y: real, w: real, n: real, ex: real, ey: real)
    requires n == x * x + y * y && w * (n + n) == (ay * x - ax * y) - (cy * x - bx * y)
    requires ex == ax - ((ax + bx) / 2.0 - w * y) && ey == ay - ((ay + cy) / 2.0 + w * x)
    ensures ey * x - ex * y == 0.0
  {
    assert ey * x == (ay - cy) / 2.0 * x - w * (x * x);
    assert ex * y == (ax - bx) / 2.0 * y + w * (y * y);
    assert w * n == w * (x * x) + w * (y * y);
  }

  // How much a twist other than the computed one adds to the sum of squares.
  function Surplus(n: real, dx: real, dy: real, dw: real): real { 2.0 * Length2(dx, dy) + 2.0 * (Square(dw) * n) }

  lemma ResidualSplits(r0: Vec2, r1: Vec2, v0: Vec2, v1: Vec2, t: BodyTwist)
    requires Centered(r0, r1) && SquaredLength(r0) + SquaredLength(r1) != 0.0
    ensures var f := Forward(r0, r1, v0, v1);
            Residual(r0, r1, v0, v1, t)
                == Residual(r0, r1, v0, v1, f) + Surplus(SquaredLength(r0), t.vx - f.vx, t.vy - f.vy, t.wz - f.wz)
  {
    hide Forward, Length2, Square, Surplus, Cross2, PointVelocity, Minus, Residual, SquaredLength;
    NormalEquations(r0, r1, v0, v1);
    var f := Forward(r0, r1, v0, v1);
    var e := Minus(v0, PointVelocity(f, r0));
    var dx, dy, dw := t.vx - f.vx, t.vy - f.vy, t.wz - f.wz;
    ErrorIsAcross(e, r0);
    Shifted(v0, r0, f, t, dx, dy, dw, e, dw * r0.x, dw * r0.y);
    OppositeProducts(dw, r0.x, r0.y, r1.x, r1.y);
    Shifted(v1, r1, f, t, dx, dy, dw, Vec2(-e.x, -e.y), dw * r1.x, dw * r1.y);
    ResidualOf(r0, r1, v0, v1, f, e, Vec2(-e.x, -e.y));
    ResidualOf(r0, r1, v0, v1, t, Vec2(e.x - dx + dw * r0.y, e.y - dy - dw * r0.x),
               Vec2(-e.x - dx - dw * r0.y, -e.y - dy + dw * r0.x));
    LengthOf(r0);
    SplitSquares(e.x, e.y, dx, dy, dw, r0.x, r0.y, dw * r0.x, dw * r0.y, SquaredLength(r0));
  }

  // The sum of squares for given errors at the two wheels.
  lemma ResidualOf(r0: Vec2, r1: Vec2, v0: Vec2, v1: Vec2, t: BodyTwist, a: Vec2, b: Vec2)
    requires Minus(v0, PointVelocity(t, r0)) == a && Minus(v1, PointVelocity(t, r1)) == b
    ensures Residual(r0, r1, v0, v1, t) == Length2(a.x, a.y) + Length2(b.x, b.y)
  {
    hide Minus, PointVelocity;
    LengthOf(a);
    LengthOf(b);
  }

  lemma LengthOf(a: Vec2)
    ensures SquaredLength(a) == Length2(a.x, a.y)
  {
  }

  lemma ErrorIsAcross(e: Vec2, r: Vec2)
    requires Cross2(e, r) == 0.0
    ensures e.y * r.x - e.x * r.y == 0.0
  {
  }

  lemma Shifted(v: Vec2, r: Vec2, f: BodyTwist, t: BodyTwist, dx: real, dy: real, dw: real, e: Vec2, p: real, q: real)
    requires dx == t.vx - f.vx && dy == t.vy - f.vy && dw == t.wz - f.wz && e == Minus(v, PointVelocity(f, r))
    requires p == dw * r.x && q == dw * r.y
    ensures Minus(v, PointVelocity(t, r)) == Vec2(e.x - dx + q, e.y - dy - p)
  {
    assert dw * r.y == t.wz * r.y - f.wz * r.y && dw * r.x == t.wz * r.x - f.wz * r.x;
  }

  lemma SplitSquares(ex: real, ey: real, dx: real, dy: real, dw: real, x: real, y: real, p: real, q: real, n: real)
    requires p == dw * x && q == dw * y && n == Length2(x, y) && ey * x - ex * y == 0.0
    ensures Length2(ex - dx + q, ey - dy - p) + Length2(-ex - dx - q, -ey - dy + p)
            == Length2(ex, ey) + Length2(-ex, -ey) + Surplus(n, dx, dy, dw)
  {
    hide Square;
    var l, m := CrossTerms(ex, ey, dw, x, y, p, q);
    SpinSquares(dw, x, y, p, q, n);
    TwoSquares(ex, dx, q, l, ex - dx + q, -ex - dx - q);
    TwoSquares(ey, dy, -p, m, ey - dy - p, -ey - dy + p);
    OppositeSquares(ex, ey);
    OppositeSquares(p, p);
    assert Length2(ex - dx + q, ey - dy - p) + Length2(-ex - dx - q, -ey - dy + p)
           == 2.0 * Length2(ex, ey) + 2.0 * Length2(dx, dy) + 2.0 * (Square(p) + Square(q));
    assert Surplus(n, dx, dy, dw) == 2.0 * Length2(dx, dy) + 2.0 * (Square(dw) * n);
  }

  lemma CrossTerms(ex: real, ey: real, dw: real, x: real, y: real, p: real, q: real) returns (l: real, m: real)
    requires p == dw * x && q == dw * y && ey * x - ex * y == 0.0
    ensures l == ex * q && m == ey * -p && l + m == 0.0
  {
    l, m := ex * q, ey * -p;
    assert l + m == -(dw * (ey * x - ex * y));
  }

  lemma SpinSquares(dw: real, x: real, y: real, p: real, q: real, n: real)
    requires p == dw * x && q == dw * y && n == Length2(x, y)
    ensures Square(p) + Square(q) == Square(dw) * n
  {
    SquareOfProduct(dw, x);
    SquareOfProduct(dw, y);
    assert (dw * dw) * (x * x) + (dw * dw) * (y * y) == (dw * dw) * (x * x + y * y);
  }

  lemma OppositeSquares(x: real, y: real)
    ensures Square(-x) == Square(x) && Square(-y) == Square(y)
  {
  }

  lemma TwoSquares(e: real, d: real, q: real, eq: real, s: real, t: real)
    requires eq == e * q && s == e - d + q && t == -e - d - q
    ensures Square(s) + Square(t) == 2.0 * Square(e) + 2.0 * Square(d) + 2.0 * Square(q) + 4.0 * eq
  {
    var u := e + q;
    assert s == u - d && t == -(u + d);
    assert (u - d) * (u - d) + (u + d) * (u + d) == 2.0 * (u * u) + 2.0 * (d * d);
    assert t * t == (u + d) * (u + d);
    assert u * u == e * e + 2.0 * eq + q * q;
  }

  // With opposite wheels, forward kinematics is the unique least-squares solution
  // for every pair of wheel velocities, so it agrees with forwardKinematicsQr.
  lemma ForwardIsLeastSquares(r0: Vec2, r1: Vec2, v0: Vec2, v1: Vec2, t: BodyTwist)
    requires Centered(r0, r1) && SquaredLength(r0) + SquaredLength(r1) != 0.0
    ensures Residual(r0, r1, v0, v1, Forward(r0, r1, v0, v1)) <= Residual(r0, r1, v0, v1, t)
    ensures t != Forward(r0, r1, v0, v1) ==>
              Residual(r0, r1, v0, v1, Forward(r0, r1, v0, v1)) < Residual(r0, r1, v0, v1, t)
  {
    var f, n := Forward(r0, r1, v0, v1), SquaredLength(r0);
    PositiveLength(r0, r1);
    ResidualSplits(r0, r1, v0, v1, t);
    hide Residual, Forward, SquaredLength;
    SurplusPositive(n, t.vx - f.vx, t.vy - f.vy, t.wz - f.wz);
  }

  lemma PositiveLength(r0: Vec2, r1: Vec2)
    requires Centered(r0, r1) && SquaredLength(r0) + SquaredLength(r1) != 0.0
    ensures SquaredLength(r0) > 0.0
  {
    assert r1 == Vec2(-r0.x, -r0.y);
    OppositeLength(r0.x, r0.y);
    SquareNonNegative(r0.x);
    SquareNonNegative(r0.y);
  }

  lemma SurplusPositive(n: real, dx: real, dy: real, dw: real)
    requires n > 0.0
    ensures Surplus(n, dx, dy, dw) >= 0.0
    ensures dx != 0.0 || dy != 0.0 || dw != 0.0 ==> Surplus(n, dx, dy, dw) > 0.0
  {
    hide Square;
    SquareSign(dx);
    SquareSign(dy);
    SquareSign(dw);
    var w := Square(dw);
    assert w * n >= 0.0 && (w > 0.0 ==> w * n > 0.0) by {
      if w > 0.0 {
        ProductPositive(w, n);
      } else {
        assert w == 0.0;
      }
    }
    assert Surplus(n, dx, dy, dw) == 2.0 * (Square(dx) + Square(dy)) + 2.0 * (w * n);
    hide Surplus;
  }

  lemma SquareSign(x: real)
    ensures Square(x) >= 0.0 && (x != 0.0 ==> Square(x) > 0.0)
  {
    hide Square;
    if x > 0.0 {
      SquareOfPositive(x, Square(x));
    } else if x < 0.0 {
      SquareOfOpposite(x);
      SquareOfPositive(-x, Square(-x));
    } else {
      SquareOfZero();
    }
  }

  lemma SquareOfZero()
    ensures Square(0.0) == 0.0
  {
  }

  lemma SquareOfOpposite(x: real)
    ensures Square(-x) == Square(x)
  {
  }

  lemma SquareOfPositive(x: real, s: real)
    requires x > 0.0 && s == Square(x)
    ensures s > 0.0
  {
    PositiveTimes(x, x, s);
  }

  lemma PositiveTimes(x: real, y: real, s: real)
    requires x > 0.0 && y > 0.0 && s == x * y
    ensures s > 0.0
  {
  }

  ghost predicate Minimizes(r0: Vec2, r1: Vec2, v0: Vec2, v1: Vec2, f: BodyTwist) {
    forall t: BodyTwist :: Residual(r0, r1, v0, v1, f) <= Residual(r0, r1, v0, v1, t)
  }

  ghost predicate AlwaysLeastSquares(r0: Vec2, r1: Vec2)
    requires SquaredLength(r0) + SquaredLength(r1) != 0.0
  {
    forall v0: Vec2, v1: Vec2 :: Minimizes(r0, r1, v0, v1, Forward(r0, r1, v0, v1))
  }

  const SPIN := BodyTwist(0.0, 0.0, 1.0)

  // Otherwise it is not: while the base spins on the spot, forward kinematics also
  // reports a translation, although a twist without any error exists.
  lemma SpinIsMisread(r0: Vec2, r1: Vec2)
    requires !Centered(r0, r1) && SquaredLength(r0) + SquaredLength(r1) != 0.0
    ensures var v0, v1 := PointVelocity(SPIN, r0), PointVelocity(SPIN, r1);
            && Residual(r0, r1, v0, v1, SPIN) == 0.0
            && Residual(r0, r1, v0, v1, Forward(r0, r1, v0, v1)) > 0.0
  {
    hide SquaredLength;
    var v0, v1 := PointVelocity(SPIN, r0), PointVelocity(SPIN, r1);
    SpinForward(r0, r1);
    var f := Forward(r0, r1, v0, v1);
    assert Minus(v0, PointVelocity(f, r0)) == Vec2((r0.y + r1.y) / 2.0, -((r0.x + r1.x) / 2.0));
    assert Minus(v1, PointVelocity(f, r1)) == Vec2((r0.y + r1.y) / 2.0, -((r0.x + r1.x) / 2.0));
    NonZeroLength((r0.y + r1.y) / 2.0, -((r0.x + r1.x) / 2.0));
    ZeroLength();
    assert Minus(v0, v0) == Vec2(0.0, 0.0) && Minus(v1, v1) == Vec2(0.0, 0.0);
  }

  lemma SpinForward(r0: Vec2, r1: Vec2)
    requires SquaredLength(r0) + SquaredLength(r1) != 0.0
    ensures PointVelocity(SPIN, r0) == Vec2(-r0.y, r0.x) && PointVelocity(SPIN, r1) == Vec2(-r1.y, r1.x)
    ensures Forward(r0, r1, PointVelocity(SPIN, r0), PointVelocity(SPIN, r1))
            == BodyTwist(-((r0.y + r1.y) / 2.0), (r0.x + r1.x) / 2.0, 1.0)
  {
    hide SquaredLength;
    var v0, v1 := PointVelocity(SPIN, r0), PointVelocity(SPIN, r1);
    SpinCross(r0);
    SpinCross(r1);
    hide Cross2;
    UnitQuotient(Cross2(v0, r0) + Cross2(v1, r1), SquaredLength(r0) + SquaredLength(r1));
  }

  lemma SpinCross(r: Vec2)
    ensures Cross2(PointVelocity(SPIN, r), r) == SquaredLength(r)
  {
  }

  lemma UnitQuotient(x: real, n: real)
    requires n != 0.0 && x == n
    ensures x / n == 1.0
  {
  }

  lemma NonZeroLength(x: real, y: real)
    requires x != 0.0 || y != 0.0
    ensures SquaredLength(Vec2(x, y)) > 0.0
  {
    hide Square;
    SquareSign(x);
    SquareSign(y);
  }

  lemma ZeroLength()
    ensures SquaredLength(Vec2(0.0, 0.0)) == 0.0
  {
  }

  lemma LeastSquaresExactlyIfCentered(r0: Vec2, r1: Vec2)
    requires SquaredLength(r0) + SquaredLength(r1) != 0.0
    ensures AlwaysLeastSquares(r0, r1) <==> Centered(r0, r1)
  {
    hide Residual, Forward, SquaredLength, PointVelocity;
    if Centered(r0, r1) {
      forall v0: Vec2, v1: Vec2 ensures Minimizes(r0, r1, v0, v1, Forward(r0, r1, v0, v1)) {
        forall t: BodyTwist ensures Residual(r0, r1, v0, v1, Forward(r0, r1, v0, v1)) <= Residual(r0, r1, v0, v1, t) {
          ForwardIsLeastSquares(r0, r1, v0, v1, t);
        }
      }
    } else {
      SpinIsMisread(r0, r1);
      var v0, v1 := PointVelocity(SPIN, r0), PointVelocity(SPIN, r1);
      assert !Minimizes(r0, r1, v0, v1, Forward(r0, r1, v0, v1));
    }
  }

  // ----- Slow wheels -----

  // For any commanded twist and any steering history the linear velocity that the
  // wheels produce differs from the commanded one by at most 2*eps*radius.
  lemma LinearErrorIsSmall(lib: Library, radius: real, r0: Vec2, r1: Vec2, t: BodyTwist, previous0: real,
                           previous1: real)
    requires lib.Sound() && radius > 0.0 && Centered(r0, r1) && SquaredLength(r0) + SquaredLength(r1) != 0.0
    ensures var (a0, s0) := WheelCommand(lib, radius, r0, t, previous0);
            var (a1, s1) := WheelCommand(lib, radius, r1, t, previous1);
            var f := Forward(r0, r1, WheelVelocity(lib, radius, a0, s0), WheelVelocity(lib, radius, a1, s1));
            Length2(f.vx - t.vx, f.vy - t.vy) <= Allowance(radius)
  {
    hide WheelCommand, WheelVelocity, SquaredLength, Length2, Library.Sound, Allowance;
    var (a0, s0) := WheelCommand(lib, radius, r0, t, previous0);
    var (a1, s1) := WheelCommand(lib, radius, r1, t, previous1);
    var v0, v1 := WheelVelocity(lib, radius, a0, s0), WheelVelocity(lib, radius, a1, s1);
    WheelIsClose(lib, radius, r0, t, previous0);
    WheelIsClose(lib, radius, r1, t, previous1);
    var e0, e1 := Minus(v0, PointVelocity(t, r0)), Minus(v1, PointVelocity(t, r1));
    assert t.wz * r0.y + t.wz * r1.y == 0.0 && t.wz * r0.x + t.wz * r1.x == 0.0 by {
      assert r1 == Vec2(-r0.x, -r0.y);
    }
    var f := Forward(r0, r1, v0, v1);
    assert f.vx - t.vx == (e0.x + e1.x) / 2.0 && f.vy - t.vy == (e0.y + e1.y) / 2.0;
    MeanIsShorter(e0, e1, Allowance(radius));
  }

  lemma WheelIsClose(lib: Library, radius: real, r: Vec2, t: BodyTwist, previous: real)
    requires lib.Sound() && radius > 0.0
    ensures var (angle, speed) := WheelCommand(lib, radius, r, t, previous);
            SquaredLength(Minus(WheelVelocity(lib, radius, angle, speed), PointVelocity(t, r))) <= Allowance(radius)
  {
    hide WheelCommand, WheelVelocity, SquaredLength, Library.Sound, PointVelocity;
    if lib.sqrt(SquaredLength(PointVelocity(t, r))) / radius > EPS {
      WheelFollowsPoint(lib, radius, r, t, previous);
      ZeroLength();
      SquareNonNegative(EPS * radius);
      var v := PointVelocity(t, r);
      assert Minus(v, v) == Vec2(0.0, 0.0);
    } else {
      SlowWheelIsClose(lib, radius, r, t, previous);
    }
  }

  lemma MeanIsShorter(a: Vec2, b: Vec2, most: real)
    requires SquaredLength(a) <= most && SquaredLength(b) <= most
    ensures Length2((a.x + b.x) / 2.0, (a.y + b.y) / 2.0) <= most
  {
    MeanSquare(a.x, b.x);
    MeanSquare(a.y, b.y);
  }

  lemma MeanSquare(x: real, y: real)
    ensures (x + y) / 2.0 * ((x + y) / 2.0) <= (x * x + y * y) / 2.0
  {
    SquareNonNegative(x - y);
    assert (x - y) * (x - y) + (x + y) * (x + y) == 2.0 * (x * x) + 2.0 * (y * y);
  }

  // So does the rotation: at the distance of the wheels from the centre its error
  // is at most 2*eps*radius as well.
  lemma RotationErrorIsSmall(lib: Library, radius: real, r0: Vec2, r1: Vec2, t: BodyTwist, previous0: real,
                             previous1: real)
    requires lib.Sound() && radius > 0.0 && Centered(r0, r1) && SquaredLength(r0) + SquaredLength(r1) != 0.0
    ensures var (a0, s0) := WheelCommand(lib, radius, r0, t, previous0);
            var (a1, s1) := WheelCommand(lib, radius, r1, t, previous1);
            var f := Forward(r0, r1, WheelVelocity(lib, radius, a0, s0), WheelVelocity(lib, radius, a1, s1));
            SquaredLength(r0) * Square(f.wz - t.wz) <= Allowance(radius)
  {
    hide WheelCommand, WheelVelocity, SquaredLength, Square, Cross2, Library.Sound, Allowance, Forward, PointVelocity,
        Minus;
    var (a0, s0) := WheelCommand(lib, radius, r0, t, previous0);
    var (a1, s1) := WheelCommand(lib, radius, r1, t, previous1);
    var v0, v1 := WheelVelocity(lib, radius, a0, s0), WheelVelocity(lib, radius, a1, s1);
    WheelIsClose(lib, radius, r0, t, previous0);
    WheelIsClose(lib, radius, r1, t, previous1);
    var e0, e1 := Minus(v0, PointVelocity(t, r0)), Minus(v1, PointVelocity(t, r1));
    PositiveLength(r0, r1);
    TurnRateError(r0, r1, v0, v1, t, e0, e1);
    var dw := Forward(r0, r1, v0, v1).wz - t.wz;
    CrossIsShorter(Minus(e0, e1), r0);
    DifferenceIsShort(e0, e1, Allowance(radius));
    TurnBound(SquaredLength(r0), dw, Cross2(Minus(e0, e1), r0), SquaredLength(Minus(e0, e1)), Allowance(radius));
  }

  lemma TurnRateError(r0: Vec2, r1: Vec2, v0: Vec2, v1: Vec2, t: BodyTwist, e0: Vec2, e1: Vec2)
    requires Centered(r0, r1) && SquaredLength(r0) + SquaredLength(r1) != 0.0
    requires e0 == Minus(v0, PointVelocity(t, r0)) && e1 == Minus(v1, PointVelocity(t, r1))
    ensures 2.0 * (SquaredLength(r0) * (Forward(r0, r1, v0, v1).wz - t.wz)) == Cross2(Minus(e0, e1), r0)
  {
    hide SquaredLength;
    assert r1 == Vec2(-r0.x, -r0.y);
    var w := Forward(r0, r1, v0, v1).wz;
    TurnRate(r0, v0, v1, w);
    CrossOfDifference(v0, v1, t, r0, r1, e0, e1);
    hide Cross2;
    var n := SquaredLength(r0);
    assert w * (n + n) == 2.0 * (n * w) && n * (w - t.wz) == n * w - n * t.wz;
  }

  lemma CrossOfDifference(v0: Vec2, v1: Vec2, t: BodyTwist, r0: Vec2, r1: Vec2, e0: Vec2, e1: Vec2)
    requires r1 == Vec2(-r0.x, -r0.y) && e0 == Minus(v0, PointVelocity(t, r0)) && e1 == Minus(v1, PointVelocity(t, r1))
    ensures Cross2(Minus(e0, e1), r0) == Cross2(v0, r0) - Cross2(v1, r0) - 2.0 * (SquaredLength(r0) * t.wz)
  {
    OppositeProducts(t.wz, r0.x, r0.y, r1.x, r1.y);
    CrossTwist(v0.x - v1.x, v0.y - v1.y, r0.x, r0.y, t.wz, t.wz * r0.x, t.wz * r0.y);
    assert Minus(e0, e1) == Vec2(v0.x - v1.x + 2.0 * (t.wz * r0.y), v0.y - v1.y - 2.0 * (t.wz * r0.x));
  }

  lemma CrossTwist(dx: real, dy: real, x: real, y: real, w: real, p: real, q: real)
    requires p == w * x && q == w * y
    ensures (dy - 2.0 * p) * x - (dx + 2.0 * q) * y == dy * x - dx * y - 2.0 * (Length2(x, y) * w)
  {
    assert p * x + q * y == (x * x + y * y) * w;
  }

  lemma CrossIsShorter(v: Vec2, r: Vec2)
    ensures Square(Cross2(v, r)) <= SquaredLength(v) * SquaredLength(r)
  {
    var c, d := v.y * r.x - v.x * r.y, v.x * r.x + v.y * r.y;
    SquareNonNegative(d);
    var a, b, p, q := v.x * v.x, v.y * v.y, r.x * r.x, r.y * r.y;
    var m := (v.x * r.x) * (v.y * r.y);
    assert d * d == a * p + b * q + 2.0 * m by { SumSquared(v.x, r.x, v.y, r.y); }
    assert c * c == b * p + a * q - 2.0 * m by { DifferenceSquared(v.x, r.x, v.y, r.y); }
    assert (a + b) * (p + q) == a * p + b * q + b * p + a * q;
  }

  lemma SumSquared(a: real, b: real, c: real, d: real)
    ensures (a * b + c * d) * (a * b + c * d) == (a * a) * (b * b) + (c * c) * (d * d) + 2.0 * ((a * b) * (c * d))
  {
    SquareOfProduct(a, b);
    SquareOfProduct(c, d);
    var x, y := a * b, c * d;
    assert (x + y) * (x + y) == x * x + y * y + 2.0 * (x * y);
  }

  lemma DifferenceSquared(a: real, b: real, c: real, d: real)
    ensures (c * b - a * d) * (c * b - a * d) == (c * c) * (b * b) + (a * a) * (d * d) - 2.0 * ((a * b) * (c * d))
  {
    SquareOfProduct(c, b);
    SquareOfProduct(a, d);
    var x, y := c * b, a * d;
    assert (x - y) * (x - y) == x * x + y * y - 2.0 * (x * y);
    assert x * y == (a * b) * (c * d);
  }

  lemma DifferenceIsShort(a: Vec2, b: Vec2, most: real)
    requires SquaredLength(a) <= most && SquaredLength(b) <= most
    ensures SquaredLength(Minus(a, b)) <= 4.0 * most
  {
    OppositeMean(a.x, b.x);
    OppositeMean(a.y, b.y);
  }

  lemma OppositeMean(x: real, y: real)
    ensures Square(x - y) <= 2.0 * Square(x) + 2.0 * Square(y)
  {
    SquareNonNegative(x + y);
    assert (x - y) * (x - y) + (x + y) * (x + y) == 2.0 * (x * x) + 2.0 * (y * y);
  }

  lemma TurnBound(n: real, dw: real, c: real, d: real, most: real)
    requires n > 0.0 && 2.0 * (n * dw) == c && Square(c) <= d * n && d <= 4.0 * most
    ensures n * Square(dw) <= most
  {
    var s := Square(dw);
    assert Square(c) == 4.0 * (n * (n * s)) by {
      SquareOfProduct(n, dw);
      assert c * c == 4.0 * ((n * dw) * (n * dw));
    }
    hide Square;
    assert d * n <= n * (4.0 * most) by { ScaleOrder(n, d, 4.0 * most); }
    CancelFactor(n, 4.0 * (n * s), 4.0 * most);
  }
}
