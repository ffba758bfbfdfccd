/** The 3-vector and twist limiters of libfranka/src/rate_limiting.cpp. */
module VectorLimiter {
  import opened Reals
  import opened RateLimiter

  datatype Vec3 = Vec3(x: real, y: real, z: real)

  function Add(a: Vec3, b: Vec3): Vec3 { Vec3(a.x + b.x, a.y + b.y, a.z + b.z) }

  function Sub(a: Vec3, b: Vec3): Vec3 { Vec3(a.x - b.x, a.y - b.y, a.z - b.z) }

  function Scale(a: Vec3, f: real): Vec3 { Vec3(a.x * f, a.y * f, a.z * f) }

  function Over(a: Vec3, f: real): Vec3
    requires f != 0.0
  {
    Vec3(a.x / f, a.y / f, a.z / f)
  }

  function Dot(a: Vec3, b: Vec3): real { a.x * b.x + a.y * b.y + a.z * b.z }

  function SquaredNorm(a: Vec3): real { Dot(a, a) }

  const ZERO := Vec3(0.0, 0.0, 0.0)

  // std::numeric_limits<double>::epsilon()
  const NORM_EPS: real := 0.0000000000000002220446049250313

  datatype Bounds = Bounds(maxVelocity: real, maxAcceleration: real, maxJerk: real) {
    ghost predicate Feasible() {
      && 0.0 <= maxVelocity && 0.0 < maxAcceleration && 0.0 < maxJerk
      && maxJerk * DELTA_T <= maxAcceleration
    }
  }

  // Velocity and acceleration of the last command.
  datatype Motion3 = Motion3(velocity: Vec3, acceleration: Vec3)

  function CommandedJerk3(command: Vec3, last: Motion3): Vec3 {
    Over(Sub(Over(Sub(command, last.velocity), DELTA_T), last.acceleration), DELTA_T)
  }

  function CommandedAcceleration(sqrt: real -> real, maxJerk: real, jerk: Vec3, last: Vec3): Vec3 {
    var n := sqrt(SquaredNorm(jerk));
    if n > NORM_EPS then Add(last, Scale(Over(jerk, n), Max(Min(n, maxJerk), -maxJerk) * DELTA_T)) else last
  }

  function Discriminant(dot: real, squaredSpeed: real, radius: real): real {
    dot * dot - squaredSpeed + radius * radius
  }

  // Distance from the velocity, along the unit direction, to the sphere of radius maxVelocity.
  function DistanceToSphere(sqrt: real -> real, maxVelocity: real, direction: Vec3, velocity: Vec3): real {
    var dot := Dot(direction, velocity);
    -dot + sqrt(Discriminant(dot, SquaredNorm(velocity), maxVelocity))
  }

  // How much of an acceleration of norm n is applied.
  function AppliedNorm(gain: real, maxAcceleration: real, n: real, distance: real): real {
    Min(n, Min(gain * distance, maxAcceleration))
  }

  function ApplyAcceleration(sqrt: real -> real, lim: Bounds, acceleration: Vec3, velocity: Vec3): Vec3
    requires lim.maxAcceleration != 0.0
  {
    var n := sqrt(SquaredNorm(acceleration));
    if n > NORM_EPS then
      var unit := Over(acceleration, n);
      var distance := DistanceToSphere(sqrt, lim.maxVelocity, unit, velocity);
      Add(velocity, Scale(unit, AppliedNorm(lim.maxJerk / lim.maxAcceleration, lim.maxAcceleration, n,
                                            distance) * DELTA_T))
    else velocity
  }

  function LimitVector(sqrt: real -> real, lim: Bounds, command: Vec3, last: Motion3): Vec3
    requires lim.maxAcceleration != 0.0
  {
    ApplyAcceleration(sqrt, lim,
                      CommandedAcceleration(sqrt, lim.maxJerk, CommandedJerk3(command, last), last.acceleration),
                      last.velocity)
  }

  // ----- Staying inside the velocity ball -----

  lemma UnitLength(sqrt: real -> real, a: Vec3)
    requires IsSquareRoot(sqrt) && sqrt(SquaredNorm(a)) > 0.0
    ensures SquaredNorm(Over(a, sqrt(SquaredNorm(a)))) == 1.0
  {
    var n := sqrt(SquaredNorm(a));
    SquaredNormNonNegative(a);
    assert n * n == SquaredNorm(a);
    var m := 1.0 / n;
    assert Over(a, n) == Scale(a, m);
    SquaredNormScaled(a, m);
    ReciprocalSquare(m, n);
  }

  lemma ReciprocalSquare(m: real, n: real)
    requires n > 0.0 && m == 1.0 / n
    ensures m * m * (n * n) == 1.0
  {
    assert m * n == 1.0;
    SquareOfProduct(m, n);
  }

  lemma SquaredNormScaled(u: Vec3, t: real)
    ensures SquaredNorm(Scale(u, t)) == t * t * SquaredNorm(u)
  {
    SquareOfProduct(u.x, t);
    SquareOfProduct(u.y, t);
    SquareOfProduct(u.z, t);
  }

  lemma SquaredNormNonNegative(a: Vec3)
    ensures SquaredNorm(a) >= 0.0
  {
    SquareNonNegative(a.x);
    SquareNonNegative(a.y);
    SquareNonNegative(a.z);
  }

  // Moving along a unit direction u for a distance t.
  lemma SquaredNormAlong(v: Vec3, u: Vec3, t: real)
    requires SquaredNorm(u) == 1.0
    ensures SquaredNorm(Add(v, Scale(u, t))) == SquaredNorm(v) + 2.0 * t * Dot(u, v) + t * t
  {
    SquareOfSum(v.x, u.x, t);
    SquareOfSum(v.y, u.y, t);
    SquareOfSum(v.z, u.z, t);
    FactorOut(2.0 * t, u.x * v.x, u.y * v.y, u.z * v.z);
    FactorOut(t * t, u.x * u.x, u.y * u.y, u.z * u.z);
  }

  lemma FactorOut(f: real, a: real, b: real, c: real)
    ensures f * a + f * b + f * c == f * (a + b + c)
  {
  }

  // Up to the distance to the sphere the squared norm stays below its radius squared.
  lemma StepInsideSphere(n2: real, dot: real, r: real, radius2: real, t: real)
    requires n2 <= radius2 && r >= 0.0 && r * r == dot * dot - n2 + radius2
    requires 0.0 <= t <= -dot + r
    ensures n2 + 2.0 * t * dot + t * t <= radius2
  {
    assert (t + dot) * (t + dot) == t * t + 2.0 * t * dot + dot * dot;
    SquareOrder(dot, r);
    SquareOrder(-dot, r);
    ProductNonNegative(r - (t + dot), r + (t + dot));
    assert (r - (t + dot)) * (r + (t + dot)) == r * r - (t + dot) * (t + dot);
  }

  lemma AppliedStep(gain: real, A: real, dt: real, n: real, distance: real)
    requires gain > 0.0 && A > 0.0 && dt > 0.0 && gain * dt <= 1.0 && n >= 0.0 && distance >= 0.0
    ensures 0.0 <= AppliedNorm(gain, A, n, distance) <= A
    ensures 0.0 <= AppliedNorm(gain, A, n, distance) * dt <= distance
  {
    var m := AppliedNorm(gain, A, n, distance);
    ProductNonNegative(gain, distance);
    ScaleOrder(dt, m, gain * distance);
    ScaleOrder(distance, gain * dt, 1.0);
    assert dt * (gain * distance) == distance * (gain * dt);
    ProductNonNegative(m, dt);
  }

  lemma SphereReach(sqrt: real -> real, radius: real, dot: real, n2: real)
    requires IsSquareRoot(sqrt) && n2 <= radius * radius
    ensures var r := sqrt(Discriminant(dot, n2, radius));
            && r >= 0.0 && r * r == dot * dot - n2 + radius * radius
            && dot <= r
  {
    SquareNonNegative(dot);
    var x := Discriminant(dot, n2, radius);
    assert x >= 0.0;
    assert sqrt(x) >= 0.0 && sqrt(x) * sqrt(x) == x;
    hide IsSquareRoot;
    SquareOrder(dot, sqrt(x));
  }

  lemma MoveInsideBall(sqrt: real -> real, radius: real, u: Vec3, v: Vec3, t: real)
    requires IsSquareRoot(sqrt) && SquaredNorm(v) <= radius * radius && SquaredNorm(u) == 1.0
    requires 0.0 <= t <= DistanceToSphere(sqrt, radius, u, v)
    ensures SquaredNorm(Add(v, Scale(u, t))) <= radius * radius
  {
    hide IsSquareRoot, SquaredNorm, Dot, Add, Scale, Discriminant;
    SphereReach(sqrt, radius, Dot(u, v), SquaredNorm(v));
    SquaredNormAlong(v, u, t);
    StepInsideSphere(SquaredNorm(v), Dot(u, v), sqrt(Discriminant(Dot(u, v), SquaredNorm(v), radius)), radius * radius,
                     t);
  }

  // One step: the velocity stays in the ball and changes by at most A*dt.
  lemma ApplyIsBounded(sqrt: real -> real, lim: Bounds, a: Vec3, v: Vec3)
    requires IsSquareRoot(sqrt) && lim.Feasible() && SquaredNorm(v) <= lim.maxVelocity * lim.maxVelocity
    ensures var w := ApplyAcceleration(sqrt, lim, a, v);
            && SquaredNorm(w) <= lim.maxVelocity * lim.maxVelocity
            && SquaredNorm(Over(Sub(w, v), DELTA_T)) <= lim.maxAcceleration * lim.maxAcceleration
  {
    hide IsSquareRoot, SquaredNorm, Dot, Discriminant, AppliedNorm, Add, Scale, Over, Sub;
    var n := sqrt(SquaredNorm(a));
    var A, k := lim.maxAcceleration, lim.maxJerk / lim.maxAcceleration;
    if n > NORM_EPS {
      UnitLength(sqrt, a);
      var unit := Over(a, n);
      SphereReach(sqrt, lim.maxVelocity, Dot(unit, v), SquaredNorm(v));
      GainArithmetic(lim.maxJerk, A, DELTA_T);
      var distance := DistanceToSphere(sqrt, lim.maxVelocity, unit, v);
      AppliedStep(k, A, DELTA_T, n, distance);
      MoveInsideBall(sqrt, lim.maxVelocity, unit, v, AppliedNorm(k, A, n, distance) * DELTA_T);
      ChangeNorm(v, unit, AppliedNorm(k, A, n, distance), A);
    } else {
      NoChange(v, A);
    }
  }

  lemma ChangeNorm(v: Vec3, u: Vec3, m: real, A: real)
    requires SquaredNorm(u) == 1.0 && 0.0 <= m <= A
    ensures SquaredNorm(Over(Sub(Add(v, Scale(u, m * DELTA_T)), v), DELTA_T)) <= A * A
  {
    assert Over(Sub(Add(v, Scale(u, m * DELTA_T)), v), DELTA_T) == Scale(u, m);
    SquaredNormScaled(u, m);
    ScaleOrder(m, m, A);
    ScaleOrder(A, m, A);
  }

  lemma NoChange(v: Vec3, A: real)
    ensures SquaredNorm(Over(Sub(v, v), DELTA_T)) <= A * A
  {
    NoDifference(v);
    ZeroNorm();
    SquareNonNegative(A);
    hide *;
  }

  lemma NoDifference(v: Vec3)
    ensures Over(Sub(v, v), DELTA_T) == ZERO
  {
    assert Sub(v, v) == ZERO;
  }

  lemma ZeroNorm()
    ensures SquaredNorm(ZERO) == 0.0
  {
  }

  // ----- Runs -----

  function Tick3(sqrt: real -> real, lim: Bounds, last: Motion3, command: Vec3): Motion3
    requires lim.maxAcceleration != 0.0
  {
    var v := LimitVector(sqrt, lim, command, last);
    Motion3(v, Over(Sub(v, last.velocity), DELTA_T))
  }

  function Run3(sqrt: real -> real, lim: Bounds, start: Motion3, commands: seq<Vec3>): Motion3
    requires lim.maxAcceleration != 0.0
  {
    if commands == [] then start
    else Tick3(sqrt, lim, Run3(sqrt, lim, start, commands[..|commands| - 1]), commands[|commands| - 1])
  }

  // On every run, whatever is commanded, the velocity stays in the ball of
  // radius maxVelocity and the applied acceleration never exceeds its limit.
  lemma {:induction false} RunStaysInBall(sqrt: real -> real, lim: Bounds, start: Motion3, commands: seq<Vec3>)
    requires IsSquareRoot(sqrt) && lim.Feasible()
    requires SquaredNorm(start.velocity) <= lim.maxVelocity * lim.maxVelocity
    requires SquaredNorm(start.acceleration) <= lim.maxAcceleration * lim.maxAcceleration
    ensures var s := Run3(sqrt, lim, start, commands);
            && SquaredNorm(s.velocity) <= lim.maxVelocity * lim.maxVelocity
            && SquaredNorm(s.acceleration) <= lim.maxAcceleration * lim.maxAcceleration
  {
    hide IsSquareRoot, SquaredNorm, ApplyAcceleration, CommandedAcceleration, CommandedJerk3, Over, Sub;
    if commands != [] {
      var s, c := Run3(sqrt, lim, start, commands[..|commands| - 1]), commands[|commands| - 1];
      RunStaysInBall(sqrt, lim, start, commands[..|commands| - 1]);
      ApplyIsBounded(sqrt, lim, CommandedAcceleration(sqrt, lim.maxJerk, CommandedJerk3(c, s), s.acceleration),
                     s.velocity);
    }
  }

  // A command within the jerk limit and the safe acceleration passes unchanged.
  lemma PassesUnchanged3(sqrt: real -> real, lim: Bounds, command: Vec3, s: Motion3)
    requires IsSquareRoot(sqrt) && lim.Feasible()
    requires var a := Over(Sub(command, s.velocity), DELTA_T);
             var n := sqrt(SquaredNorm(a));
             && NORM_EPS < sqrt(SquaredNorm(CommandedJerk3(command, s))) <= lim.maxJerk
             && NORM_EPS < n <= lim.maxAcceleration
             && n <= lim.maxJerk / lim.maxAcceleration * DistanceToSphere(sqrt, lim.maxVelocity, Over(a, n), s.velocity)
    ensures LimitVector(sqrt, lim, command, s) == command
  {
    hide IsSquareRoot, SquaredNorm, DistanceToSphere;
    var a, j := Over(Sub(command, s.velocity), DELTA_T), CommandedJerk3(command, s);
    var n, m := sqrt(SquaredNorm(a)), sqrt(SquaredNorm(j));
    Rescaled(j, m);
    assert Add(s.acceleration, Scale(Over(j, m), m * DELTA_T)) == a;
    assert CommandedAcceleration(sqrt, lim.maxJerk, j, s.acceleration) == a;
    hide CommandedAcceleration, CommandedJerk3;
    Rescaled(a, n);
    assert Add(s.velocity, Scale(Over(a, n), n * DELTA_T)) == command;
  }

  lemma Rescaled(a: Vec3, n: real)
    requires n != 0.0
    ensures Scale(Over(a, n), n * DELTA_T) == Scale(a, DELTA_T)
  {
    assert (a.x / n) * n == a.x && (a.y / n) * n == a.y && (a.z / n) * n == a.z;
  }

  // ----- Towards the command -----

  // The inner product with a unit vector is at most the norm.
  lemma ComponentBound(u: Vec3, e: Vec3)
    requires SquaredNorm(u) == 1.0
    ensures Dot(u, e) * Dot(u, e) <= SquaredNorm(e)
  {
    var t := -Dot(u, e);
    SquaredNormAlong(e, u, t);
    SquaredNormNonNegative(Add(e, Scale(u, t)));
  }

  // Of all points e at most r from the origin, the one on the unit direction u
  // is nearest to the point at distance m >= r along u.
  lemma NearestOnBall(u: Vec3, m: real, r: real, e: Vec3)
    requires SquaredNorm(u) == 1.0 && 0.0 <= r <= m && SquaredNorm(e) <= r * r
    ensures (m - r) * (m - r) <= SquaredNorm(Sub(e, Scale(u, m)))
  {
    hide SquaredNorm, Dot, Add, Scale, Sub;
    var d := Dot(u, e);
    ComponentBound(u, e);
    SquaredNormAlong(e, u, -m);
    OppositeStep(e, u, m);
    assert d <= r by { SquareOrder(d, r); }
    DistanceAlong(SquaredNorm(e), d, m, r);
  }

  lemma DistanceAlong(n2: real, d: real, m: real, r: real)
    requires d * d <= n2 && d <= r <= m
    ensures (m - r) * (m - r) <= n2 - 2.0 * m * d + m * m
  {
    assert (m - d) * (m - d) == d * d - 2.0 * m * d + m * m;
    ScaleOrder(m - r, m - r, m - d);
    ScaleOrder(m - d, m - r, m - d);
  }

  lemma OppositeStep(e: Vec3, u: Vec3, m: real)
    ensures Add(e, Scale(u, -m)) == Sub(e, Scale(u, m))
  {
    assert u.x * -m == -(u.x * m) && u.y * -m == -(u.y * m) && u.z * -m == -(u.z * m);
  }

  // What is left of the jerk after the clamp goes the same way.
  lemma AppliedJerk(sqrt: real -> real, J: real, jerk: Vec3, last: Vec3)
    requires IsSquareRoot(sqrt) && J > 0.0 && sqrt(SquaredNorm(jerk)) > NORM_EPS
    ensures var n := sqrt(SquaredNorm(jerk));
            && CommandedAcceleration(sqrt, J, jerk, last) == Add(last, Scale(Over(jerk, n), Min(n, J) * DELTA_T))
            && SquaredNorm(Over(jerk, n)) == 1.0 && jerk == Scale(Over(jerk, n), n)
  {
    hide SquaredNorm;
    var n := sqrt(SquaredNorm(jerk));
    UnitLength(sqrt, jerk);
    assert (jerk.x / n) * n == jerk.x && (jerk.y / n) * n == jerk.y && (jerk.z / n) * n == jerk.z;
  }

  // Among all accelerations within the jerk limit of the last one, the one the
  // limiter forms is nearest to the commanded acceleration.
  lemma CommandedAccelerationIsNearest(sqrt: real -> real, J: real, command: Vec3, last: Motion3, other: Vec3)
    requires IsSquareRoot(sqrt) && J > 0.0
    requires sqrt(SquaredNorm(CommandedJerk3(command, last))) > NORM_EPS
    requires SquaredNorm(Sub(other, last.acceleration)) <= (J * DELTA_T) * (J * DELTA_T)
    ensures var wish := Over(Sub(command, last.velocity), DELTA_T);
            var a := CommandedAcceleration(sqrt, J, CommandedJerk3(command, last), last.acceleration);
            && SquaredNorm(Sub(a, last.acceleration)) <= (J * DELTA_T) * (J * DELTA_T)
            && SquaredNorm(Sub(a, wish)) <= SquaredNorm(Sub(other, wish))
  {
    hide SquaredNorm, CommandedAcceleration, CommandedJerk3, Over, IsSquareRoot;
    var wish, jerk := Over(Sub(command, last.velocity), DELTA_T), CommandedJerk3(command, last);
    var n := sqrt(SquaredNorm(jerk));
    AppliedJerk(sqrt, J, jerk, last.acceleration);
    var u := Over(jerk, n);
    JerkToWish(command, last);
    NearestStep(u, n, J, last.acceleration, wish, other);
  }

  lemma JerkToWish(command: Vec3, last: Motion3)
    ensures Over(Sub(command, last.velocity), DELTA_T)
            == Add(last.acceleration, Scale(CommandedJerk3(command, last), DELTA_T))
  {
  }

  lemma NearestStep(u: Vec3, n: real, J: real, last: Vec3, wish: Vec3, other: Vec3)
    requires SquaredNorm(u) == 1.0 && n >= 0.0 && J > 0.0 && wish == Add(last, Scale(Scale(u, n), DELTA_T))
    requires SquaredNorm(Sub(other, last)) <= (J * DELTA_T) * (J * DELTA_T)
    ensures var a := Add(last, Scale(u, Min(n, J) * DELTA_T));
            && SquaredNorm(Sub(a, last)) <= (J * DELTA_T) * (J * DELTA_T)
            && SquaredNorm(Sub(a, wish)) <= SquaredNorm(Sub(other, wish))
  {
    hide SquaredNorm;
    var t, m, r := Min(n, J) * DELTA_T, n * DELTA_T, J * DELTA_T;
    var e := Sub(other, last);
    StepDifferences(u, last, other, n, t, m);
    SquaredNormScaled(u, t);
    SquaredNormScaled(u, t - m);
    ScaleOrder(t, t, r);
    ScaleOrder(r, t, r);
    if n <= J {
      SquaredNormNonNegative(Sub(other, wish));
    } else {
      NearestOnBall(u, m, r, e);
      assert (t - m) * (t - m) == (m - r) * (m - r);
    }
  }

  lemma StepDifferences(u: Vec3, last: Vec3, other: Vec3, n: real, t: real, m: real)
    requires m == n * DELTA_T
    ensures Scale(Scale(u, n), DELTA_T) == Scale(u, m)
    ensures Sub(Add(last, Scale(u, t)), last) == Scale(u, t)
    ensures Sub(Add(last, Scale(u, t)), Add(last, Scale(u, m))) == Scale(u, t - m)
    ensures Sub(other, Add(last, Scale(u, m))) == Sub(Sub(other, last), Scale(u, m))
  {
  }

  // The velocity that the acceleration of norm t would reach if it were withdrawn
  // with the jerk limit still lies in the ball.
  ghost predicate Withdrawable(lim: Bounds, u: Vec3, v: Vec3, t: real)
    requires lim.maxJerk != 0.0
  {
    SquaredNorm(Add(v, Scale(u, Withdrawal(lim, t)))) <= lim.maxVelocity * lim.maxVelocity
  }

  // How much velocity is gained while an acceleration of norm t is withdrawn, in
  // the sense of the limiter's gain.
  function Withdrawal(lim: Bounds, t: real): real
    requires lim.maxJerk != 0.0
  {
    t * (lim.maxAcceleration / lim.maxJerk)
  }

  // The guard applies as much of an acceleration as the limits allow, and no less.
  lemma AppliedIsLargest(sqrt: real -> real, lim: Bounds, a: Vec3, v: Vec3, other: real) returns (t: real)
    requires IsSquareRoot(sqrt) && lim.Feasible() && SquaredNorm(v) <= lim.maxVelocity * lim.maxVelocity
    requires sqrt(SquaredNorm(a)) > NORM_EPS
    ensures var n := sqrt(SquaredNorm(a));
            && ApplyAcceleration(sqrt, lim, a, v) == Add(v, Scale(Over(a, n), t * DELTA_T))
            && 0.0 <= t <= n && t <= lim.maxAcceleration && Withdrawable(lim, Over(a, n), v, t)
            && (0.0 <= other <= n && other <= lim.maxAcceleration && Withdrawable(lim, Over(a, n), v, other) ==>
                  other <= t)
  {
    hide IsSquareRoot, SquaredNorm, DistanceToSphere, AppliedNorm, Add, Scale, Over, Withdrawable;
    var n := sqrt(SquaredNorm(a));
    UnitLength(sqrt, a);
    t := AppliedNorm(lim.maxJerk / lim.maxAcceleration, lim.maxAcceleration, n,
                     DistanceToSphere(sqrt, lim.maxVelocity, Over(a, n), v));
    LargestNorm(sqrt, lim, Over(a, n), v, n, t, other);
  }

  lemma LargestNorm(sqrt: real -> real, lim: Bounds, u: Vec3, v: Vec3, n: real, t: real, other: real)
    requires IsSquareRoot(sqrt) && lim.Feasible() && SquaredNorm(v) <= lim.maxVelocity * lim.maxVelocity
    requires SquaredNorm(u) == 1.0 && n >= 0.0
    requires t == AppliedNorm(lim.maxJerk / lim.maxAcceleration, lim.maxAcceleration, n,
                              DistanceToSphere(sqrt, lim.maxVelocity, u, v))
    ensures 0.0 <= t <= n && t <= lim.maxAcceleration && Withdrawable(lim, u, v, t)
    ensures 0.0 <= other <= n && other <= lim.maxAcceleration && Withdrawable(lim, u, v, other) ==> other <= t
  {
    hide IsSquareRoot, SquaredNorm, Dot, Discriminant, Add, Scale, DistanceToSphere, Withdrawal;
    var A, J, distance := lim.maxAcceleration, lim.maxJerk, DistanceToSphere(sqrt, lim.maxVelocity, u, v);
    assert distance >= 0.0 by { DistanceNonNegative(sqrt, lim.maxVelocity, u, v); }
    assert 0.0 <= t by {
      GainArithmetic(J, A, DELTA_T);
      AppliedStep(J / A, A, DELTA_T, n, distance);
    }
    InverseGain(lim, distance, t);
    MoveInsideBall(sqrt, lim.maxVelocity, u, v, Withdrawal(lim, t));
    if 0.0 <= other <= n && other <= A && Withdrawable(lim, u, v, other) {
      OutsideBeyondSphere(sqrt, lim.maxVelocity, u, v, Withdrawal(lim, other));
      InverseGain(lim, distance, other);
    }
  }

  lemma DistanceNonNegative(sqrt: real -> real, radius: real, u: Vec3, v: Vec3)
    requires IsSquareRoot(sqrt) && SquaredNorm(v) <= radius * radius
    ensures DistanceToSphere(sqrt, radius, u, v) >= 0.0
  {
    hide IsSquareRoot, SquaredNorm, Dot, Discriminant;
    SphereReach(sqrt, radius, Dot(u, v), SquaredNorm(v));
  }

  lemma InverseGain(lim: Bounds, distance: real, t: real)
    requires lim.maxAcceleration > 0.0 && lim.maxJerk > 0.0
    ensures t <= lim.maxJerk / lim.maxAcceleration * distance <==> Withdrawal(lim, t) <= distance
    ensures t >= 0.0 ==> Withdrawal(lim, t) >= 0.0
  {
    var A, J := lim.maxAcceleration, lim.maxJerk;
    var k, h := J / A, A / J;
    assert k * A == J && h * J == A;
    assert k * h == 1.0 by { Reciprocals(A, J, k, h); }
    assert k > 0.0 && h > 0.0;
    if t <= k * distance {
      ScaleOrder(h, t, k * distance);
      assert h * (k * distance) == (k * h) * distance;
    }
    if t * h <= distance {
      ScaleOrder(k, t * h, distance);
      assert k * (t * h) == (k * h) * t;
    }
    if t >= 0.0 { ProductNonNegative(t, h); }
  }

  lemma Reciprocals(A: real, J: real, k: real, h: real)
    requires A > 0.0 && J > 0.0 && k * A == J && h * J == A
    ensures k * h == 1.0
  {
    assert (k * h) * J == k * A;
    CancelEqual(J, k * h, 1.0);
  }

  // Beyond the distance to the sphere lies nothing of the ball.
  lemma OutsideBeyondSphere(sqrt: real -> real, radius: real, u: Vec3, v: Vec3, t: real)
    requires IsSquareRoot(sqrt) && SquaredNorm(v) <= radius * radius && SquaredNorm(u) == 1.0
    requires SquaredNorm(Add(v, Scale(u, t))) <= radius * radius
    ensures t <= DistanceToSphere(sqrt, radius, u, v)
  {
    hide IsSquareRoot, SquaredNorm, Dot, Add, Scale, Discriminant;
    SphereReach(sqrt, radius, Dot(u, v), SquaredNorm(v));
    SquaredNormAlong(v, u, t);
    BelowRoot(SquaredNorm(v), Dot(u, v), sqrt(Discriminant(Dot(u, v), SquaredNorm(v), radius)), radius * radius, t);
  }

  lemma BelowRoot(n2: real, dot: real, r: real, radius2: real, t: real)
    requires r >= 0.0 && r * r == dot * dot - n2 + radius2 && n2 + 2.0 * t * dot + t * t <= radius2
    ensures t + dot <= r
  {
    assert (t + dot) * (t + dot) == t * t + 2.0 * t * dot + dot * dot;
    SquareOrder(t + dot, r);
  }

  // From zero acceleration the velocity moves straight towards the command and
  // not beyond it; it does move if it is inside the ball and the step is above
  // the threshold of the code.
  lemma MovesTowardsCommand(sqrt: real -> real, lim: Bounds, command: Vec3, v: Vec3) returns (f: real)
    requires IsSquareRoot(sqrt) && lim.Feasible() && SquaredNorm(v) <= lim.maxVelocity * lim.maxVelocity
    ensures LimitVector(sqrt, lim, command, Motion3(v, ZERO)) == Add(v, Scale(Sub(command, v), f)) && 0.0 <= f <= 1.0
    ensures var n := sqrt(SquaredNorm(CommandedJerk3(command, Motion3(v, ZERO))));
            SquaredNorm(v) < lim.maxVelocity * lim.maxVelocity && n > NORM_EPS
                && Min(n, lim.maxJerk) * DELTA_T > NORM_EPS
            ==> f > 0.0
  {
    hide IsSquareRoot, SquaredNorm, DistanceToSphere, AppliedNorm, CommandedJerk3, CommandedAcceleration,
        ApplyAcceleration;
    var jerk, J := CommandedJerk3(command, Motion3(v, ZERO)), lim.maxJerk;
    var n := sqrt(SquaredNorm(jerk));
    if n > NORM_EPS {
      AppliedJerk(sqrt, J, jerk, ZERO);
      var u, m := Over(jerk, n), Min(n, J) * DELTA_T;
      var a := Scale(u, m);
      assert Add(ZERO, a) == a;
      NormOfScaled(sqrt, u, m);
      if m > NORM_EPS {
        f := TowardsCommand(sqrt, lim, command, v, u, n, m);
      } else {
        StaysWithSmallAcceleration(sqrt, lim, a, v);
        f := 0.0;
        NoMove(v, Sub(command, v));
      }
    } else {
      StaysWithSmallJerk(sqrt, lim, command, v);
      f := 0.0;
      NoMove(v, Sub(command, v));
    }
  }

  lemma NormOfScaled(sqrt: real -> real, u: Vec3, m: real)
    requires IsSquareRoot(sqrt) && SquaredNorm(u) == 1.0 && m >= 0.0
    ensures sqrt(SquaredNorm(Scale(u, m))) == m
  {
    hide SquaredNorm;
    SquaredNormScaled(u, m);
    SquareNonNegative(m);
    assert SquaredNorm(Scale(u, m)) == m * m;
    var r := sqrt(m * m);
    assert r >= 0.0 && r * r == m * m;
    SquareOrder(r, m);
    SquareOrder(m, r);
  }

  lemma NoMove(v: Vec3, d: Vec3)
    ensures Add(v, Scale(d, 0.0)) == v
  {
  }

  lemma StaysWithSmallAcceleration(sqrt: real -> real, lim: Bounds, a: Vec3, v: Vec3)
    requires lim.maxAcceleration != 0.0 && sqrt(SquaredNorm(a)) <= NORM_EPS
    ensures ApplyAcceleration(sqrt, lim, a, v) == v
  {
  }

  lemma StaysWithSmallJerk(sqrt: real -> real, lim: Bounds, command: Vec3, v: Vec3)
    requires IsSquareRoot(sqrt) && lim.maxAcceleration != 0.0
    requires sqrt(SquaredNorm(CommandedJerk3(command, Motion3(v, ZERO)))) <= NORM_EPS
    ensures LimitVector(sqrt, lim, command, Motion3(v, ZERO)) == v
  {
    hide SquaredNorm, CommandedJerk3;
    ZeroNorm();
    var r := sqrt(0.0);
    assert r >= 0.0 && r * r == 0.0;
    SquareOrder(r, 0.0);
  }

  // u is the direction to the command, n the norm of the jerk that reaches it.
  lemma TowardsCommand(sqrt: real -> real, lim: Bounds, command: Vec3, v: Vec3, u: Vec3, n: real, m: real)
    returns (f: real)
    requires IsSquareRoot(sqrt) && lim.Feasible() && SquaredNorm(v) <= lim.maxVelocity * lim.maxVelocity
    requires SquaredNorm(u) == 1.0 && n > NORM_EPS && m == Min(n, lim.maxJerk) * DELTA_T > NORM_EPS
    requires sqrt(SquaredNorm(Scale(u, m))) == m && CommandedJerk3(command, Motion3(v, ZERO)) == Scale(u, n)
    ensures ApplyAcceleration(sqrt, lim, Scale(u, m), v) == Add(v, Scale(Sub(command, v), f)) && 0.0 <= f <= 1.0
    ensures SquaredNorm(v) < lim.maxVelocity * lim.maxVelocity ==> f > 0.0
  {
    hide IsSquareRoot, SquaredNorm, CommandedJerk3, ApplyAcceleration, Add, Scale, Sub, Over, Withdrawable;
    var t := AppliedIsLargest(sqrt, lim, Scale(u, m), v, 0.0);
    UnitAgain(u, m);
    f := Fraction(t, n, m);
    DifferenceAlong(command, v, u, n);
    MoveAsFraction(v, Sub(command, v), u, t, n, f);
    if SquaredNorm(v) < lim.maxVelocity * lim.maxVelocity {
      SomeIsApplied(sqrt, lim, u, v, m, t);
    }
  }

  lemma UnitAgain(u: Vec3, m: real)
    requires m > 0.0
    ensures Over(Scale(u, m), m) == u
  {
    assert u.x * m / m == u.x && u.y * m / m == u.y && u.z * m / m == u.z;
  }

  lemma Fraction(t: real, n: real, m: real) returns (f: real)
    requires n > 0.0 && 0.0 <= t <= m <= n * DELTA_T
    ensures 0.0 <= f <= 1.0 && f * (n * DELTA_T) == t && (t > 0.0 ==> f > 0.0)
  {
    var d := n * DELTA_T;
    f := t / d;
    assert f * d == t;
    if f > 1.0 { ProductPositive(f - 1.0, d); }
    if f < 0.0 { ProductPositive(-f, d); }
  }

  lemma DifferenceAlong(command: Vec3, v: Vec3, u: Vec3, n: real)
    requires CommandedJerk3(command, Motion3(v, ZERO)) == Scale(u, n)
    ensures Sub(command, v) == Scale(u, n * DELTA_T * DELTA_T)
  {
    var j := CommandedJerk3(command, Motion3(v, ZERO));
    assert Sub(command, v) == Scale(j, DELTA_T * DELTA_T);
    assert u.x * n * (DELTA_T * DELTA_T) == u.x * (n * DELTA_T * DELTA_T);
    assert u.y * n * (DELTA_T * DELTA_T) == u.y * (n * DELTA_T * DELTA_T);
    assert u.z * n * (DELTA_T * DELTA_T) == u.z * (n * DELTA_T * DELTA_T);
  }

  lemma MoveAsFraction(v: Vec3, d: Vec3, u: Vec3, t: real, n: real, f: real)
    requires d == Scale(u, n * DELTA_T * DELTA_T) && f * (n * DELTA_T) == t
    ensures Add(v, Scale(u, t * DELTA_T)) == Add(v, Scale(d, f))
  {
    var e := n * DELTA_T * DELTA_T;
    assert t * DELTA_T == e * f;
    assert u.x * e * f == u.x * (e * f) && u.y * e * f == u.y * (e * f) && u.z * e * f == u.z * (e * f);
  }

  lemma SomeIsApplied(sqrt: real -> real, lim: Bounds, u: Vec3, v: Vec3, m: real, t: real)
    requires IsSquareRoot(sqrt) && lim.Feasible() && SquaredNorm(v) < lim.maxVelocity * lim.maxVelocity
    requires SquaredNorm(u) == 1.0 && m > NORM_EPS && sqrt(SquaredNorm(Scale(u, m))) == m && t >= 0.0
    requires ApplyAcceleration(sqrt, lim, Scale(u, m), v) == Add(v, Scale(u, t * DELTA_T))
    ensures t > 0.0
  {
    hide IsSquareRoot, SquaredNorm, Dot, Discriminant, Add, Scale;
    UnitAgain(u, m);
    SphereReach(sqrt, lim.maxVelocity, Dot(u, v), SquaredNorm(v));
    var r := sqrt(Discriminant(Dot(u, v), SquaredNorm(v), lim.maxVelocity));
    StrictlyInside(Dot(u, v), r, SquaredNorm(v), lim.maxVelocity * lim.maxVelocity);
    var distance, k := DistanceToSphere(sqrt, lim.maxVelocity, u, v), lim.maxJerk / lim.maxAcceleration;
    var applied := AppliedNorm(k, lim.maxAcceleration, m, distance);
    assert applied > 0.0 by { ProductPositive(k, distance); }
    SameStep(v, u, applied * DELTA_T, t * DELTA_T);
  }

  lemma StrictlyInside(dot: real, r: real, n2: real, radius2: real)
    requires r >= 0.0 && r * r == dot * dot - n2 + radius2 && n2 < radius2
    ensures -dot + r > 0.0
  {
    if r <= dot {
      ScaleOrder(r, r, dot);
      ScaleOrder(dot, r, dot);
    }
  }

  lemma SameStep(v: Vec3, u: Vec3, s: real, t: real)
    requires SquaredNorm(u) == 1.0 && Add(v, Scale(u, s)) == Add(v, Scale(u, t))
    ensures s == t
  {
  }
}
