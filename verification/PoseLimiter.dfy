/** The twist and pose limiters of libfranka/src/rate_limiting.cpp. */
module PoseLimiter {
  import opened Reals
  import opened RateLimiter
  import opened VectorLimiter
  import opened Rotations

  // A 4x4 matrix: rotation block, translation column, and bottom row (bottom, corner).
  datatype Transform = Transform(linear: Mat3, translation: Vec3, bottom: Vec3, corner: real)

  datatype Twist = Twist(linear: Vec3, angular: Vec3)

  datatype PoseMotion = PoseMotion(pose: Transform, twist: Twist, acceleration: Twist)

  datatype PoseBounds = PoseBounds(translational: Bounds, rotational: Bounds)

  datatype Outcome<T> = Accepted(value: T) | InvalidTransformation

  // The library functions the pose limiter relies on. The rotation part of a
  // matrix is always a rotation, and of a rotation it is the matrix itself.
  datatype Library = Library(sqrt: real -> real, sin: real -> real, cos: real -> real,
                             rotationPart: Mat3 -> Mat3, rotationVector: Mat3 -> Vec3,
                             slerp: (real, Mat3, Mat3) -> Mat3)
  {
    ghost predicate Sound() {
      && IsSquareRoot(sqrt)
      && (forall x :: sin(x) * sin(x) + cos(x) * cos(x) == 1.0)
      && (forall m :: IsRotation(rotationPart(m)))
      && (forall m :: IsRotation(m) ==> rotationPart(m) == m)
    }
  }

  const ORTHONORMAL_THRESHOLD := 0.00001
  const FACTOR_ROTATION_POSE_INTERFACE := 0.99

  function Transposed(m: Mat3): Mat3 {
    Mat3(Vec3(m.c0.x, m.c1.x, m.c2.x), Vec3(m.c0.y, m.c1.y, m.c2.y), Vec3(m.c0.z, m.c1.z, m.c2.z))
  }

  predicate NearUnit(sqrt: real -> real, a: Vec3) { Abs(sqrt(SquaredNorm(a)) - 1.0) <= ORTHONORMAL_THRESHOLD }

  predicate NearUnitColumns(sqrt: real -> real, m: Mat3) {
    NearUnit(sqrt, m.c0) && NearUnit(sqrt, m.c1) && NearUnit(sqrt, m.c2)
  }

  // isHomogeneousTransformation of control_tools.h.
  predicate IsHomogeneous(sqrt: real -> real, t: Transform) {
    && t.bottom == ZERO && t.corner == 1.0
    && NearUnitColumns(sqrt, t.linear) && NearUnitColumns(sqrt, Transposed(t.linear))
  }

  function LimitTwist(sqrt: real -> real, b: PoseBounds, command: Twist, last: PoseMotion): Twist
    requires b.translational.maxAcceleration != 0.0 && b.rotational.maxAcceleration != 0.0
  {
    Twist(LimitVector(sqrt, b.translational, command.linear, Motion3(last.twist.linear, last.acceleration.linear)),
          LimitVector(sqrt, b.rotational, command.angular, Motion3(last.twist.angular, last.acceleration.angular)))
  }

  // The twist that would reach the commanded pose in one period.
  function CommandedTwist(lib: Library, command: Transform, last: Transform): Twist {
    var difference := Times(lib.rotationPart(command.linear), Transposed(lib.rotationPart(last.linear)));
    Twist(Over(Sub(command.translation, last.translation), DELTA_T), Over(lib.rotationVector(difference), DELTA_T))
  }

  function RotationStep(lib: Library, angular: Vec3): Mat3 {
    var n := lib.sqrt(SquaredNorm(angular));
    if n > NORM_EPS then Rodrigues(Over(angular, n), lib.sin(DELTA_T * n), lib.cos(DELTA_T * n)) else IDENTITY
  }

  function Integrate(lib: Library, last: Transform, twist: Twist): Transform {
    var rotation := lib.rotationPart(last.linear);
    Transform(if lib.sqrt(SquaredNorm(twist.angular)) > NORM_EPS
              then Times(RotationStep(lib, twist.angular), rotation)
              else rotation,
              Add(last.translation, Scale(twist.linear, DELTA_T)), ZERO, 1.0)
  }

  function Reduced(b: Bounds): Bounds {
    Bounds(FACTOR_ROTATION_POSE_INTERFACE * b.maxVelocity, FACTOR_ROTATION_POSE_INTERFACE * b.maxAcceleration,
           FACTOR_ROTATION_POSE_INTERFACE * b.maxJerk)
  }

  function PoseTwist(lib: Library, b: PoseBounds, command: Transform, last: PoseMotion): Twist
    requires b.translational.maxAcceleration != 0.0 && b.rotational.maxAcceleration != 0.0
  {
    LimitTwist(lib.sqrt, b.(rotational := Reduced(b.rotational)), CommandedTwist(lib, command, last.pose), last)
  }

  function LimitPose(lib: Library, b: PoseBounds, command: Transform, last: PoseMotion): Outcome<Transform>
    requires b.translational.maxAcceleration != 0.0 && b.rotational.maxAcceleration != 0.0
  {
    if !IsHomogeneous(lib.sqrt, command) then InvalidTransformation
    else Accepted(Integrate(lib, last.pose, PoseTwist(lib, b, command, last)))
  }

  // ----- One step -----

  // The rotation block of a right-handed frame has unit rows as well.
  lemma RowOfFrame(x0: real, y0: real, z0: real, x1: real, y1: real, z1: real, x2: real)
    requires x0 * x0 + y0 * y0 + z0 * z0 == 1.0 && x1 * x1 + y1 * y1 + z1 * z1 == 1.0
    requires x0 * x1 + y0 * y1 + z0 * z1 == 0.0 && x2 == y0 * z1 - z0 * y1
    ensures x0 * x0 + x1 * x1 + x2 * x2 == 1.0
  {
    var a, b, d := x0 * x0, x1 * x1, x0 * x1;
    assert d * d == a * b by { SquareOfProduct(x0, x1); }
    var f, g := y0 * y1, z0 * z1;
    assert d == -(f + g);
    assert d * d == f * f + 2.0 * f * g + g * g;
    assert x2 * x2 == (y0 * z1) * (y0 * z1) - 2.0 * f * g + (z0 * y1) * (z0 * y1) by {
      CrossTerm(y0, z0, y1, z1, f, g);
    }
    LagrangeProduct(y0, z0, y1, z1, f, g, a, b);
  }

  lemma CrossTerm(y0: real, z0: real, y1: real, z1: real, f: real, g: real)
    requires f == y0 * y1 && g == z0 * z1
    ensures (y0 * z1 - z0 * y1) * (y0 * z1 - z0 * y1) == (y0 * z1) * (y0 * z1) - 2.0 * f * g + (z0 * y1) * (z0 * y1)
  {
    assert (y0 * z1) * (z0 * y1) == f * g;
  }

  lemma LagrangeProduct(y0: real, z0: real, y1: real, z1: real, f: real, g: real, a: real, b: real)
    requires f == y0 * y1 && g == z0 * z1
    requires y0 * y0 + z0 * z0 == 1.0 - a && y1 * y1 + z1 * z1 == 1.0 - b
    ensures f * f + g * g + (y0 * z1) * (y0 * z1) + (z0 * y1) * (z0 * y1) == 1.0 - a - b + a * b
  {
    var p, q, r, t := y0 * y0, z0 * z0, y1 * y1, z1 * z1;
    SquareOfProduct(y0, y1);
    SquareOfProduct(z0, z1);
    SquareOfProduct(y0, z1);
    SquareOfProduct(z0, y1);
    assert (p + q) * (r + t) == p * r + q * t + p * t + q * r;
    assert (1.0 - a) * (1.0 - b) == 1.0 - a - b + a * b;
  }

  lemma RotationHasUnitRows(m: Mat3)
    requires IsRotation(m)
    ensures var t := Transposed(m); SquaredNorm(t.c0) == 1.0 && SquaredNorm(t.c1) == 1.0 && SquaredNorm(t.c2) == 1.0
  {
    hide IsRotation, SquaredNorm;
    UnitFirstRow(m.c0, m.c1, m.c2, Transposed(m).c0);
    CycledFrame(m);
    UnitFirstRow(Cycled(m.c0), Cycled(m.c1), Cycled(m.c2), Transposed(m).c1);
    CycledFrame(Mat3(Cycled(m.c0), Cycled(m.c1), Cycled(m.c2)));
    UnitFirstRow(Cycled(Cycled(m.c0)), Cycled(Cycled(m.c1)), Cycled(Cycled(m.c2)), Transposed(m).c2);
  }

  // The coordinates shifted by one place.
  function Cycled(a: Vec3): Vec3 { Vec3(a.y, a.z, a.x) }

  lemma CycledFrame(m: Mat3)
    requires IsRotation(m)
    ensures IsRotation(Mat3(Cycled(m.c0), Cycled(m.c1), Cycled(m.c2)))
  {
    CycledProducts(m.c0, m.c0);
    CycledProducts(m.c1, m.c1);
    CycledProducts(m.c2, m.c2);
    CycledProducts(m.c0, m.c1);
    CycledProducts(m.c1, m.c2);
    CycledProducts(m.c2, m.c0);
    hide Dot, Cross, Cycled;
  }

  lemma CycledProducts(a: Vec3, b: Vec3)
    ensures Dot(Cycled(a), Cycled(b)) == Dot(a, b) && Cross(Cycled(a), Cycled(b)) == Cycled(Cross(a, b))
  {
  }

  lemma UnitFirstRow(a: Vec3, b: Vec3, c: Vec3, row: Vec3)
    requires IsRotation(Mat3(a, b, c)) && row == Vec3(a.x, b.x, c.x)
    ensures SquaredNorm(row) == 1.0
  {
    RowOfFrame(a.x, a.y, a.z, b.x, b.y, b.z, c.x);
  }

  lemma UnitIsNearUnit(sqrt: real -> real, a: Vec3)
    requires IsSquareRoot(sqrt) && SquaredNorm(a) == 1.0
    ensures NearUnit(sqrt, a)
  {
    var r := sqrt(1.0);
    assert r >= 0.0 && r * r == 1.0;
    SquareOrder(r, 1.0);
    SquareOrder(1.0, r);
  }

  // Every rigid transform passes the check that commands have to pass.
  lemma RigidIsHomogeneous(sqrt: real -> real, t: Transform)
    requires IsSquareRoot(sqrt) && Rigid(t)
    ensures IsHomogeneous(sqrt, t)
  {
    RotationHasUnitRows(t.linear);
    assert SquaredNorm(t.linear.c0) == 1.0 && SquaredNorm(t.linear.c1) == 1.0 && SquaredNorm(t.linear.c2) == 1.0;
    var r := Transposed(t.linear);
    hide IsSquareRoot, SquaredNorm, NearUnit, IsRotation, Transposed;
    UnitIsNearUnit(sqrt, t.linear.c0);
    UnitIsNearUnit(sqrt, t.linear.c1);
    UnitIsNearUnit(sqrt, t.linear.c2);
    UnitIsNearUnit(sqrt, r.c0);
    UnitIsNearUnit(sqrt, r.c1);
    UnitIsNearUnit(sqrt, r.c2);
  }

  ghost predicate Rigid(t: Transform) { IsRotation(t.linear) && t.bottom == ZERO && t.corner == 1.0 }

  // after is before, turned about some axis by an angle of at most most.
  ghost predicate TurnedAtMost(lib: Library, before: Mat3, after: Mat3, most: real) {
    || after == before
    || exists u: Vec3, angle: real ::
         SquaredNorm(u) == 1.0 && 0.0 <= angle <= most
             && after == Times(Rodrigues(u, lib.sin(angle), lib.cos(angle)), before)
  }

  // A Rodrigues matrix is the rotation by the angle with the given sine and
  // cosine: it keeps its axis, and turns a unit vector across the axis by that angle.
  lemma RodriguesIsRotationByAngle(w: Vec3, s: real, c: real, x: Vec3)
    requires SquaredNorm(w) == 1.0 && s * s + c * c == 1.0
    requires SquaredNorm(x) == 1.0 && Dot(w, x) == 0.0
    ensures Apply(Rodrigues(w, s, c), w) == w
    ensures var y := Apply(Rodrigues(w, s, c), x); Dot(w, y) == 0.0 && Dot(x, y) == c && Dot(w, Cross(x, y)) == s
  {
    SquaredNormIsDot(w);
    SquaredNormIsDot(x);
    RodriguesTurns(w, s, c, w);
    RodriguesTurns(w, s, c, x);
    var y := Turned(w, s, c, x);
    hide Dot, Cross, Scale, Add, Sub, SquaredNorm, Rodrigues, Apply;
    assert Turned(w, s, c, w) == w by {
      CrossSelf(w);
      ScaleByOne(w);
      AxisCombination(w, s, c);
    }
    hide Turned;
    TurnedDot(w, s, c, x, w);
    TurnedDot(w, s, c, x, x);
    AxisProducts(w, x, x);
    DotSymmetric(w, x);
    DotSymmetric(w, y);
    DotSymmetric(x, y);
    TripleProduct(w, x, y);
    DotSymmetric(Cross(w, x), y);
    TurnedDot(w, s, c, x, Cross(w, x));
    DotSymmetric(x, Cross(w, x));
    DotSymmetric(w, Cross(w, x));
  }

  lemma AxisCombination(w: Vec3, s: real, c: real)
    ensures Add(Add(Scale(w, c), Scale(ZERO, s)), Scale(Scale(w, 1.0), 1.0 - c)) == w
  {
  }

  lemma IntegrateKeepsRigid(lib: Library, last: Transform, twist: Twist)
    requires lib.Sound()
    ensures Rigid(Integrate(lib, last, twist))
  {
    hide IsRotation, SquaredNorm, Over, Rodrigues, IsSquareRoot;
    var n := lib.sqrt(SquaredNorm(twist.angular));
    if n > NORM_EPS {
      UnitLength(lib.sqrt, twist.angular);
      RotatedFrame(Over(twist.angular, n), lib.sin(DELTA_T * n), lib.cos(DELTA_T * n), lib.rotationPart(last.linear));
    }
  }

  lemma IntegrateIsBounded(lib: Library, last: Transform, twist: Twist, v: real, w: real)
    requires lib.Sound() && 0.0 <= v && 0.0 <= w
    requires SquaredNorm(twist.linear) <= v * v && SquaredNorm(twist.angular) <= w * w
    ensures var next := Integrate(lib, last, twist);
            && SquaredNorm(Sub(next.translation, last.translation)) <= (v * DELTA_T) * (v * DELTA_T)
            && TurnedAtMost(lib, lib.rotationPart(last.linear), next.linear, w * DELTA_T)
  {
    hide IsRotation, SquaredNorm, Over, Rodrigues, IsSquareRoot;
    assert Sub(Add(last.translation, Scale(twist.linear, DELTA_T)), last.translation) == Scale(twist.linear, DELTA_T);
    SquaredNormScaled(twist.linear, DELTA_T);
    ScaleOrder(DELTA_T * DELTA_T, SquaredNorm(twist.linear), v * v);
    SquareOfProduct(v, DELTA_T);
    var n := lib.sqrt(SquaredNorm(twist.angular));
    if n > NORM_EPS {
      UnitLength(lib.sqrt, twist.angular);
      NormBound(lib.sqrt, twist.angular, w);
      var u, angle := Over(twist.angular, n), DELTA_T * n;
      assert SquaredNorm(u) == 1.0 && 0.0 <= angle <= w * DELTA_T;
      assert Integrate(lib, last, twist).linear
          == Times(Rodrigues(u, lib.sin(angle), lib.cos(angle)), lib.rotationPart(last.linear));
    }
  }

  lemma NormBound(sqrt: real -> real, a: Vec3, w: real)
    requires IsSquareRoot(sqrt) && 0.0 <= w && SquaredNorm(a) <= w * w
    ensures 0.0 <= sqrt(SquaredNorm(a)) <= w
  {
    SquaredNormNonNegative(a);
    var n := sqrt(SquaredNorm(a));
    assert n >= 0.0 && n * n == SquaredNorm(a);
    SquareOrder(n, w);
  }

  // ----- Runs -----

  ghost predicate FeasibleBounds(b: PoseBounds) { b.translational.Feasible() && b.rotational.Feasible() }

  // Velocity and acceleration of the last command within the limits.
  ghost predicate Within(b: Bounds, velocity: Vec3, acceleration: Vec3) {
    && SquaredNorm(velocity) <= b.maxVelocity * b.maxVelocity
    && SquaredNorm(acceleration) <= b.maxAcceleration * b.maxAcceleration
  }

  ghost predicate TwistWithin(b: PoseBounds, s: PoseMotion) {
    && Within(b.translational, s.twist.linear, s.acceleration.linear)
    && Within(Reduced(b.rotational), s.twist.angular, s.acceleration.angular)
  }

  // One cycle: the robot reports the limited pose and twist as its last command.
  function PoseTick(lib: Library, b: PoseBounds, last: PoseMotion, command: Transform): Outcome<PoseMotion>
    requires b.translational.maxAcceleration != 0.0 && b.rotational.maxAcceleration != 0.0
  {
    match LimitPose(lib, b, command, last)
    case InvalidTransformation => InvalidTransformation
    case Accepted(pose) =>
      var twist := PoseTwist(lib, b, command, last);
      Accepted(PoseMotion(pose, twist, Twist(Over(Sub(twist.linear, last.twist.linear), DELTA_T),
                                             Over(Sub(twist.angular, last.twist.angular), DELTA_T))))
  }

  // The loop ends with an exception at the first command that is no transformation.
  function PoseRun(lib: Library, b: PoseBounds, start: PoseMotion, commands: seq<Transform>): Outcome<PoseMotion>
    requires b.translational.maxAcceleration != 0.0 && b.rotational.maxAcceleration != 0.0
  {
    if commands == [] then Accepted(start)
    else match PoseRun(lib, b, start, commands[..|commands| - 1])
      case InvalidTransformation => InvalidTransformation
      case Accepted(s) => PoseTick(lib, b, s, commands[|commands| - 1])
  }

  lemma FeasibleFacts(b: PoseBounds)
    requires FeasibleBounds(b)
    ensures b.translational.Feasible() && Reduced(b.rotational).Feasible()
    ensures b.translational.maxAcceleration > 0.0 && b.rotational.maxAcceleration > 0.0
    ensures b.translational.maxVelocity >= 0.0 && b.rotational.maxVelocity >= 0.0
  {
  }

  lemma HasSquareRoot(lib: Library)
    requires lib.Sound()
    ensures IsSquareRoot(lib.sqrt)
  {
  }

  lemma LimitedVectorIsWithin(sqrt: real -> real, b: Bounds, command: Vec3, last: Motion3)
    requires IsSquareRoot(sqrt) && b.Feasible() && Within(b, last.velocity, last.acceleration)
    ensures var v := LimitVector(sqrt, b, command, last); Within(b, v, Over(Sub(v, last.velocity), DELTA_T))
  {
    hide IsSquareRoot, SquaredNorm, ApplyAcceleration, CommandedAcceleration, CommandedJerk3, Over, Sub;
    ApplyIsBounded(sqrt, b, CommandedAcceleration(sqrt, b.maxJerk, CommandedJerk3(command, last), last.acceleration),
                   last.velocity);
  }

  // The translation moves by at most Vmax*dt, the rotation turns by at most
  // 0.99*Wmax*dt, counted from the rotation part of the pose before.
  ghost predicate BoundedMove(lib: Library, b: PoseBounds, before: Transform, after: Transform) {
    var d := b.translational.maxVelocity * DELTA_T;
    && SquaredNorm(Sub(after.translation, before.translation)) <= d * d
    && TurnedAtMost(lib, lib.rotationPart(before.linear), after.linear,
                    FACTOR_ROTATION_POSE_INTERFACE * b.rotational.maxVelocity * DELTA_T)
  }

  // From any last pose, rigid or not, to a rigid one.
  lemma PoseStep(lib: Library, b: PoseBounds, s: PoseMotion, command: Transform)
    requires lib.Sound() && FeasibleBounds(b) && TwistWithin(b, s) && IsHomogeneous(lib.sqrt, command)
    ensures var r := PoseTick(lib, b, s, command);
            && r.Accepted? && Rigid(r.value.pose) && TwistWithin(b, r.value) && IsHomogeneous(lib.sqrt, r.value.pose)
            && BoundedMove(lib, b, s.pose, r.value.pose)
  {
    hide LimitVector, IsSquareRoot, IsRotation, SquaredNorm, Over, Sub, Integrate, CommandedTwist, TurnedAtMost,
         IsHomogeneous, Library.Sound, Bounds.Feasible, FeasibleBounds, Rigid;
    FeasibleFacts(b);
    HasSquareRoot(lib);
    var v, w := b.translational, Reduced(b.rotational);
    var c := CommandedTwist(lib, command, s.pose);
    var twist := PoseTwist(lib, b, command, s);
    LimitedVectorIsWithin(lib.sqrt, v, c.linear, Motion3(s.twist.linear, s.acceleration.linear));
    LimitedVectorIsWithin(lib.sqrt, w, c.angular, Motion3(s.twist.angular, s.acceleration.angular));
    IntegrateKeepsRigid(lib, s.pose, twist);
    IntegrateIsBounded(lib, s.pose, twist, v.maxVelocity, w.maxVelocity);
    IntegratedIsHomogeneous(lib, s.pose, twist);
  }

  lemma IntegratedIsHomogeneous(lib: Library, last: Transform, twist: Twist)
    requires lib.Sound()
    ensures IsHomogeneous(lib.sqrt, Integrate(lib, last, twist))
  {
    hide *;
    HasSquareRoot(lib);
    IntegrateKeepsRigid(lib, last, twist);
    RigidIsHomogeneous(lib.sqrt, Integrate(lib, last, twist));
  }

  lemma PoseTickRejects(lib: Library, b: PoseBounds, s: PoseMotion, command: Transform)
    requires b.translational.maxAcceleration != 0.0 && b.rotational.maxAcceleration != 0.0
             && !IsHomogeneous(lib.sqrt, command)
    ensures PoseTick(lib, b, s, command) == InvalidTransformation
  {
  }

  // The pose limiter makes the commanded poses rigid on whole runs, moves the
  // translation by at most Vmax*dt and turns by at most 0.99*Wmax*dt per cycle,
  // and stops exactly at the first command that is not a transformation.
  lemma {:induction false} RunStaysRigid(lib: Library, b: PoseBounds, start: PoseMotion, commands: seq<Transform>)
    requires lib.Sound() && FeasibleBounds(b) && TwistWithin(b, start)
    ensures var r := PoseRun(lib, b, start, commands);
            && (r.Accepted? <==> forall i :: 0 <= i < |commands| ==> IsHomogeneous(lib.sqrt, commands[i]))
            && (r.Accepted? ==> TwistWithin(b, r.value) && (commands != [] ==> Rigid(r.value.pose)))
  {
    hide Library.Sound, Rigid, TwistWithin, IsHomogeneous, FeasibleBounds, BoundedMove, PoseTick;
    FeasibleFacts(b);
    if commands != [] {
      var n := |commands| - 1;
      RunStaysRigid(lib, b, start, commands[..n]);
      var s := PoseRun(lib, b, start, commands[..n]);
      if s.Accepted? && IsHomogeneous(lib.sqrt, commands[n]) {
        PoseStep(lib, b, s.value, commands[n]);
      } else if s.Accepted? {
        PoseTickRejects(lib, b, s.value, commands[n]);
      }
      assert forall i :: 0 <= i < n ==> commands[i] == commands[..n][i];
    }
  }

  // The built-in Cartesian limits.
  const CARTESIAN := PoseBounds(Bounds(2.999, 8.999, 4499.999), Bounds(2.499, 16.999, 8499.999))

  // With the built-in limits, from rest at any pose.
  lemma BuiltInRunStaysRigid(lib: Library, start: Transform, commands: seq<Transform>)
    requires lib.Sound()
    ensures var r := PoseRun(lib, CARTESIAN, PoseMotion(start, Twist(ZERO, ZERO), Twist(ZERO, ZERO)), commands);
            && (r.Accepted? <==> forall i :: 0 <= i < |commands| ==> IsHomogeneous(lib.sqrt, commands[i]))
            && (r.Accepted? ==> TwistWithin(CARTESIAN, r.value) && (commands != [] ==> Rigid(r.value.pose)))
  {
    ZeroNorm();
    hide Library.Sound, Rigid, IsHomogeneous, SquaredNorm;
    RunStaysRigid(lib, CARTESIAN, PoseMotion(start, Twist(ZERO, ZERO), Twist(ZERO, ZERO)), commands);
  }
}
