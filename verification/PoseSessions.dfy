/** The pose interface of libfranka/src/control_loop.cpp: one call, and whole sessions with an echoing robot. */
module PoseSessions {
  import opened ControlLoop
  import opened JointSessions
  import opened JointStops
  import opened Options
  import opened PoseLimiter
  import opened RateLimiter
  import opened Reals
  import opened Rotations
  import opened VectorLimiter

  // filter is the low-pass gain, none when the cutoff frequency disables the filter.
  datatype PoseSettings = PoseSettings(filter: Option<real>, limitRate: bool) {
    function Gain(): real { if filter.Some? then filter.value else 1.0 }
  }

  // The Cartesian low-pass filter: the translation is mixed, the rotation is
  // interpolated; the bottom row stays.
  function FilteredPose(lib: Library, gain: real, current: Transform, last: Transform): Transform {
    Transform(lib.slerp(gain, lib.rotationPart(last.linear), lib.rotationPart(current.linear)),
              Vec3(Filtered(gain, current.translation.x, last.translation.x),
                   Filtered(gain, current.translation.y, last.translation.y),
                   Filtered(gain, current.translation.z, last.translation.z)),
              current.bottom, current.corner)
  }

  function AfterFilter(lib: Library, cfg: PoseSettings, current: Transform, last: Transform): Transform {
    if cfg.filter.Some? then FilteredPose(lib, cfg.filter.value, current, last) else current
  }

  function Checked(lib: Library, pose: Transform): Outcome<Transform> {
    if IsHomogeneous(lib.sqrt, pose) then Accepted(pose) else InvalidTransformation
  }

  // The pose sent for one output of the callback; s holds the reference pose
  // and the robot's last twist and acceleration.
  function PoseCommand(lib: Library, cfg: PoseSettings, s: PoseMotion, motion: Transform): Outcome<Transform> {
    var command := AfterFilter(lib, cfg, motion, s.pose);
    if cfg.limitRate then
      match LimitPose(lib, CARTESIAN, command, s)
      case InvalidTransformation => InvalidTransformation
      case Accepted(limited) => Checked(lib, limited)
    else Checked(lib, command)
  }

  class PoseLoop {
    const cfg: PoseSettings
    var initializedFilter: bool

    constructor (cfg: PoseSettings)
      ensures this.cfg == cfg && !initializedFilter
    {
      this.cfg, initializedFilter := cfg, false;
    }

    // s and e are what the robot reports of its last pose and elbow command. In
    // the first call the commanded pose and elbow are their own references.
    method Convert(lib: Library, motion: Transform, elbow: Option<real>, s: PoseMotion, e: JointState)
      returns (pose: Outcome<Transform>, elbowCommand: Option<real>)
      modifies this`initializedFilter
      ensures initializedFilter
      ensures pose == PoseCommand(lib, cfg, if old(initializedFilter) then s else s.(pose := motion), motion)
      ensures pose.Accepted? ==> (elbowCommand.Some? <==> elbow.Some?)
      ensures pose.Accepted? && elbow.Some? ==>
                elbowCommand.value == ElbowCommand(cfg.Gain(), cfg.limitRate,
                    if old(initializedFilter) then e else e.(position := elbow.value), elbow.value)
    {
      hide IsHomogeneous, LimitPose, FilteredPose, LimitVelocity;
      var command, referencePose, referenceElbow := motion, s.pose, 0.0;
      if !initializedFilter {
        referencePose := command;
        if elbow.Some? { referenceElbow := elbow.value; }
        initializedFilter := true;
      } else if elbow.Some? {
        referenceElbow := e.position;
      }
      if cfg.filter.Some? {
        command := FilteredPose(lib, cfg.filter.value, command, referencePose);
      }
      if cfg.limitRate {
        var limited := LimitPose(lib, CARTESIAN, command, s.(pose := referencePose));
        if limited.InvalidTransformation? {
          return InvalidTransformation, None;
        }
        command := limited.value;
      }
      if !IsHomogeneous(lib.sqrt, command) {
        return InvalidTransformation, None;
      }
      pose := Accepted(command);
      if elbow.None? {
        return pose, None;
      }
      var value := elbow.value;
      if cfg.filter.Some? {
        value := Filtered(cfg.filter.value, value, referenceElbow);
      } else {
        FilterOff(value, referenceElbow);
      }
      if cfg.limitRate {
        value := LimitPosition(ELBOW, value, referenceElbow, Motion(e.velocity, e.acceleration));
      }
      elbowCommand := Some(value);
    }
  }

  lemma FilterOff(value: real, last: real)
    ensures Filtered(1.0, value, last) == value
  {
  }

  // ----- Sessions -----

  const STILL := Twist(ZERO, ZERO)

  function AtRest(pose: Transform): PoseMotion { PoseMotion(pose, STILL, STILL) }

  // The robot reports the pose it was sent, and the twist and acceleration that it moved with.
  function EchoPose(lib: Library, s: PoseMotion, pose: Transform): PoseMotion {
    var twist := CommandedTwist(lib, pose, s.pose);
    PoseMotion(pose, twist, Twist(Over(Sub(twist.linear, s.twist.linear), DELTA_T),
                                  Over(Sub(twist.angular, s.twist.angular), DELTA_T)))
  }

  // The first output is its own reference; an output that is no transformation ends the session.
  function PoseSession(lib: Library, cfg: PoseSettings, start: Transform, outs: seq<Transform>): Outcome<PoseMotion> {
    if outs == [] then Accepted(AtRest(start))
    else
      var n := |outs| - 1;
      match PoseSession(lib, cfg, start, outs[..n])
      case InvalidTransformation => InvalidTransformation
      case Accepted(s) =>
        match PoseCommand(lib, cfg, if n == 0 then s.(pose := outs[0]) else s, outs[n])
        case InvalidTransformation => InvalidTransformation
        case Accepted(pose) => Accepted(EchoPose(lib, s, pose))
  }

  function Elbows(outs: seq<(Transform, real)>): (elbows: seq<real>)
    ensures |elbows| == |outs|
  {
    seq(|outs|, i requires 0 <= i < |outs| => outs[i].1)
  }

  function Poses(outs: seq<(Transform, real)>): (poses: seq<Transform>)
    ensures |poses| == |outs|
  {
    seq(|outs|, i requires 0 <= i < |outs| => outs[i].0)
  }

  lemma MotionsGrow(outs: seq<(Transform, real)>, n: nat)
    requires n < |outs|
    ensures Poses(outs[..n + 1])[..n] == Poses(outs[..n]) && Poses(outs[..n + 1])[n] == outs[n].0
    ensures Elbows(outs[..n + 1])[..n] == Elbows(outs[..n]) && Elbows(outs[..n + 1])[n] == outs[n].1
    ensures Poses(outs[..n + 1])[0] == outs[0].0 && Elbows(outs[..n + 1])[0] == outs[0].1
  {
  }

  lemma NoMotions()
    ensures Poses([]) == [] && Elbows([]) == []
  {
  }

  // An exception ends the session for good.
  lemma {:induction false} StaysInvalid(lib: Library, cfg: PoseSettings, start: Transform, outs: seq<Transform>, n: nat)
    requires n <= |outs| && PoseSession(lib, cfg, start, outs[..n]).InvalidTransformation?
    ensures PoseSession(lib, cfg, start, outs).InvalidTransformation?
    decreases |outs|
  {
    hide PoseCommand, EchoPose;
    if n == |outs| {
      assert outs[..n] == outs;
    } else {
      var m := |outs| - 1;
      assert outs[..m][..n] == outs[..n];
      StaysInvalid(lib, cfg, start, outs[..m], n);
    }
  }

  // The loop object with an echoing robot computes exactly this session, and
  // the session of its elbow.
  method EchoMotions(poseLoop: PoseLoop, lib: Library, start: Transform, elbow0: JointState,
                     outs: seq<(Transform, real)>)
    returns (r: Outcome<PoseMotion>, elbow: JointState)
    requires !poseLoop.initializedFilter
    modifies poseLoop`initializedFilter
    ensures r == PoseSession(lib, poseLoop.cfg, start, Poses(outs))
    ensures r.Accepted? ==>
              elbow == ElbowSession(poseLoop.cfg.Gain(), poseLoop.cfg.limitRate, elbow0, Elbows(outs))
  {
    hide PoseCommand, ElbowCommand, EchoPose, Echo, Poses, Elbows;
    NoMotions();
    r, elbow := Accepted(AtRest(start)), elbow0;
    for n := 0 to |outs|
      invariant poseLoop.initializedFilter <==> n > 0
      invariant r.Accepted? && r == PoseSession(lib, poseLoop.cfg, start, Poses(outs[..n]))
      invariant elbow
                == ElbowSession(poseLoop.cfg.Gain(), poseLoop.cfg.limitRate, elbow0, Elbows(outs[..n]))
    {
      MotionsGrow(outs, n);
      var pose, command := poseLoop.Convert(lib, outs[n].0, Some(outs[n].1), r.value, elbow);
      if pose.InvalidTransformation? {
        PrefixOfPoses(outs, n + 1);
        StaysInvalid(lib, poseLoop.cfg, start, Poses(outs), n + 1);
        return InvalidTransformation, elbow;
      }
      r, elbow := Accepted(EchoPose(lib, r.value, pose.value)), Echo(elbow, command.value);
    }
    assert outs[..|outs|] == outs;
  }

  lemma PrefixOfPoses(outs: seq<(Transform, real)>, n: nat)
    requires n <= |outs|
    ensures Poses(outs)[..n] == Poses(outs[..n])
  {
  }

  // ----- The transpose of a rotation is its inverse -----

  // Two entries of the third column, as a cross product of the first two, multiplied.
  lemma RowsProduct(x0: real, y0: real, z0: real, x1: real, y1: real, z1: real, f: real, g: real, h: real)
    requires f == z0 * z1 && g == z0 * z0 && h == z1 * z1
    ensures (y0 * z1 - z0 * y1) * (z0 * x1 - x0 * z1) == (y0 * x1 + x0 * y1) * f - (x0 * y0) * h - (x1 * y1) * g
  {
    assert (y0 * z1) * (z0 * x1) == (y0 * x1) * f;
    assert (y0 * z1) * (x0 * z1) == (x0 * y0) * h;
    assert (z0 * y1) * (z0 * x1) == (x1 * y1) * g;
    assert (z0 * y1) * (x0 * z1) == (x0 * y1) * f;
  }

  lemma RowsCancel(x0: real, y0: real, x1: real, y1: real, f: real, g: real, h: real)
    requires f == -(x0 * x1 + y0 * y1) && g == 1.0 - x0 * x0 - y0 * y0 && h == 1.0 - x1 * x1 - y1 * y1
    ensures (y0 * x1 + x0 * y1) * f - (x0 * y0) * h - (x1 * y1) * g == -(x0 * y0) - x1 * y1
  {
    var p, q, a, b, c, d := x0 * y0, x1 * y1, x0 * x0, y0 * y0, x1 * x1, y1 * y1;
    assert (y0 * x1) * (x0 * x1) == p * c;
    assert (y0 * x1) * (y0 * y1) == q * b;
    assert (x0 * y1) * (x0 * x1) == q * a;
    assert (x0 * y1) * (y0 * y1) == p * d;
    assert p * h == p - p * c - p * d;
    assert q * g == q - q * a - q * b;
    assert (y0 * x1 + x0 * y1) * f == -(p * c + q * b + q * a + p * d) by {
      assert (y0 * x1) * f == -((y0 * x1) * (x0 * x1)) - (y0 * x1) * (y0 * y1);
      assert (x0 * y1) * f == -((x0 * y1) * (x0 * x1)) - (x0 * y1) * (y0 * y1);
    }
  }

  lemma RowsOrthogonal(x0: real, y0: real, z0: real, x1: real, y1: real, z1: real, x2: real, y2: real)
    requires x0 * x0 + y0 * y0 + z0 * z0 == 1.0 && x1 * x1 + y1 * y1 + z1 * z1 == 1.0
    requires x0 * x1 + y0 * y1 + z0 * z1 == 0.0 && x2 == y0 * z1 - z0 * y1 && y2 == z0 * x1 - x0 * z1
    ensures x0 * y0 + x1 * y1 + x2 * y2 == 0.0
  {
    var f, g, h := z0 * z1, z0 * z0, z1 * z1;
    assert x2 * y2 == (y0 * x1 + x0 * y1) * f - (x0 * y0) * h - (x1 * y1) * g by {
      RowsProduct(x0, y0, z0, x1, y1, z1, f, g, h);
    }
    RowsCancel(x0, y0, x1, y1, f, g, h);
  }

  // The product of a rotation with its transpose holds the products of its rows.
  lemma TimesTransposed(m: Mat3)
    requires IsRotation(m)
    ensures Times(m, Transposed(m)) == IDENTITY
  {
    hide IsRotation, Cycled;
    RotationHasUnitRows(m);
    RowPair(m.c0, m.c1, m.c2);
    CycledFrame(m);
    RowPair(Cycled(m.c0), Cycled(m.c1), Cycled(m.c2));
    var n := Mat3(Cycled(m.c0), Cycled(m.c1), Cycled(m.c2));
    CycledFrame(n);
    RowPair(Cycled(n.c0), Cycled(n.c1), Cycled(n.c2));
    CycledTwice(m.c0);
    CycledTwice(m.c1);
    CycledTwice(m.c2);
    IdentityFromRows(m);
  }

  lemma CycledTwice(a: Vec3)
    ensures Cycled(a) == Vec3(a.y, a.z, a.x) && Cycled(Cycled(a)) == Vec3(a.z, a.x, a.y)
  {
  }

  lemma RowPair(a: Vec3, b: Vec3, c: Vec3)
    requires IsRotation(Mat3(a, b, c))
    ensures a.x * a.y + b.x * b.y + c.x * c.y == 0.0
  {
    RowsOrthogonal(a.x, a.y, a.z, b.x, b.y, b.z, c.x, c.y);
  }

  lemma IdentityFromRows(m: Mat3)
    requires var t := Transposed(m);
             SquaredNorm(t.c0) == 1.0 && SquaredNorm(t.c1) == 1.0 && SquaredNorm(t.c2) == 1.0
    requires m.c0.x * m.c0.y + m.c1.x * m.c1.y + m.c2.x * m.c2.y == 0.0
    requires m.c0.y * m.c0.z + m.c1.y * m.c1.z + m.c2.y * m.c2.z == 0.0
    requires m.c0.z * m.c0.x + m.c1.z * m.c1.x + m.c2.z * m.c2.x == 0.0
    ensures Times(m, Transposed(m)) == IDENTITY
  {
    hide Row;
    RowProducts(m.c0.x, m.c1.x, m.c2.x, m.c0.y, m.c1.y, m.c2.y);
    RowProducts(m.c0.y, m.c1.y, m.c2.y, m.c0.z, m.c1.z, m.c2.z);
    RowProducts(m.c0.z, m.c1.z, m.c2.z, m.c0.x, m.c1.x, m.c2.x);
  }

  lemma RowProducts(a: real, b: real, c: real, x: real, y: real, z: real)
    ensures Row(a, b, c, Vec3(x, y, z)) == a * x + b * y + c * z && Row(x, y, z, Vec3(a, b, c)) == a * x + b * y + c * z
    ensures Row(a, b, c, Vec3(a, b, c)) == SquaredNorm(Vec3(a, b, c))
  {
  }

  lemma TimesIdentity(m: Mat3)
    ensures Times(m, IDENTITY) == m && Times(IDENTITY, m) == m
  {
  }

  lemma TimesAssociates(m: Mat3, n: Mat3, r: Mat3)
    ensures Times(Times(m, n), r) == Times(m, Times(n, r))
  {
    hide Apply;
    ApplyTimes(m, n, r.c0);
    ApplyTimes(m, n, r.c1);
    ApplyTimes(m, n, r.c2);
  }

  // ----- Rotation vectors -----

  function Turn(lib: Library, v: Vec3): Mat3 {
    var n := lib.sqrt(SquaredNorm(v));
    if n > 0.0 then Rodrigues(Over(v, n), lib.sin(n), lib.cos(n)) else IDENTITY
  }

  // The rotation vector of the difference of two rotations turns one into the
  // other; for a turn by at most one radian it is the axis times the angle.
  // Interpolating between a rotation and itself does nothing.
  ghost predicate SoundVectors(lib: Library) {
    && (forall after, before :: IsRotation(after) && IsRotation(before) ==>
          after == Times(Turn(lib, lib.rotationVector(Times(after, Transposed(before)))), before))
    && (forall u: Vec3, angle: real :: SquaredNorm(u) == 1.0 && 0.0 <= angle <= 1.0 ==>
          lib.rotationVector(Rodrigues(u, lib.sin(angle), lib.cos(angle))) == Scale(u, angle))
    && lib.rotationVector(IDENTITY) == ZERO
    && (forall gain, m :: IsRotation(m) ==> lib.slerp(gain, m, m) == m)
  }

  // Turned by at most an angle exactly if the rotation vector is no longer than it.
  lemma TurnedExactly(lib: Library, before: Mat3, after: Mat3, most: real)
    requires lib.Sound() && SoundVectors(lib) && IsRotation(before) && IsRotation(after) && 0.0 <= most <= 1.0
    ensures TurnedAtMost(lib, before, after, most)
            <==> SquaredNorm(lib.rotationVector(Times(after, Transposed(before)))) <= most * most
  {
    hide IsRotation, SquaredNorm, Rodrigues, Times, Transposed, Over, Scale, IsSquareRoot;
    var v := lib.rotationVector(Times(after, Transposed(before)));
    if TurnedAtMost(lib, before, after, most) {
      TurnedMeansShort(lib, before, after, most);
    }
    if SquaredNorm(v) <= most * most {
      NormBound(lib.sqrt, v, most);
      var n := lib.sqrt(SquaredNorm(v));
      if n > 0.0 {
        UnitLength(lib.sqrt, v);
        assert after == Times(Rodrigues(Over(v, n), lib.sin(n), lib.cos(n)), before);
      } else {
        TimesIdentity(before);
      }
    }
  }

  lemma TurnedMeansShort(lib: Library, before: Mat3, after: Mat3, most: real)
    requires SoundVectors(lib) && IsRotation(before) && 0.0 <= most <= 1.0 && TurnedAtMost(lib, before, after, most)
    ensures SquaredNorm(lib.rotationVector(Times(after, Transposed(before)))) <= most * most
  {
    hide IsRotation, Rodrigues, Times, Transposed, SquaredNorm, Scale;
    TimesTransposed(before);
    if after == before {
      ZeroNorm();
      SquareNonNegative(most);
    } else {
      var u: Vec3, angle: real :| SquaredNorm(u) == 1.0 && 0.0 <= angle <= most
                                  && after == Times(Rodrigues(u, lib.sin(angle), lib.cos(angle)), before);
      var r := Rodrigues(u, lib.sin(angle), lib.cos(angle));
      TimesAssociates(r, before, Transposed(before));
      TimesIdentity(r);
      assert lib.rotationVector(r) == Scale(u, angle);
      SquaredNormScaled(u, angle);
      ScaleOrder(angle, angle, most);
      ScaleOrder(most, angle, most);
    }
  }

  // ----- What the first pose does -----

  const MOVE: real := CARTESIAN.translational.maxVelocity * DELTA_T
  const TURN: real := FACTOR_ROTATION_POSE_INTERFACE * CARTESIAN.rotational.maxVelocity * DELTA_T

  // The output is within one bounded move of the robot's pose.
  ghost predicate NearRobot(lib: Library, robot: Transform, first: Transform) {
    && SquaredNorm(Sub(first.translation, robot.translation)) <= MOVE * MOVE
    && TurnedAtMost(lib, lib.rotationPart(robot.linear), lib.rotationPart(first.linear), TURN)
  }

  // What the first output becomes: its own rotation part and translation.
  function Straightened(lib: Library, pose: Transform): Transform {
    Transform(lib.rotationPart(pose.linear), pose.translation, ZERO, 1.0)
  }

  // The first output is refused only if it is no transformation after filtering.
  predicate FirstIsHomogeneous(lib: Library, cfg: PoseSettings, first: Transform) {
    IsHomogeneous(lib.sqrt, AfterFilter(lib, cfg, first, first))
  }

  lemma LimitOfRest(sqrt: real -> real, b: Bounds)
    requires IsSquareRoot(sqrt) && b.maxAcceleration != 0.0
    ensures LimitVector(sqrt, b, ZERO, Motion3(ZERO, ZERO)) == ZERO
  {
    hide IsSquareRoot, SquaredNorm, CommandedJerk3, DistanceToSphere, Over, Scale, Add;
    ZeroNorm();
    RootOfZero(sqrt);
    NoJerk();
  }

  lemma NoJerk()
    ensures CommandedJerk3(ZERO, Motion3(ZERO, ZERO)) == ZERO
  {
  }

  lemma FilterOfItself(lib: Library, cfg: PoseSettings, pose: Transform)
    requires lib.Sound() && SoundVectors(lib)
    ensures var command := AfterFilter(lib, cfg, pose, pose);
            && command.translation == pose.translation
            && lib.rotationPart(command.linear) == lib.rotationPart(pose.linear)
            && (IsHomogeneous(lib.sqrt, command) ==> pose.bottom == ZERO && pose.corner == 1.0)
  {
    hide IsRotation, NearUnitColumns, Filtered;
    if cfg.filter.Some? {
      FilterKeepsReference(cfg.filter.value, pose.translation.x);
      FilterKeepsReference(cfg.filter.value, pose.translation.y);
      FilterKeepsReference(cfg.filter.value, pose.translation.z);
    }
  }

  lemma NoDifference(lib: Library, command: Transform, pose: Transform)
    requires lib.Sound() && SoundVectors(lib)
    requires command.translation == pose.translation
             && lib.rotationPart(command.linear) == lib.rotationPart(pose.linear)
    ensures CommandedTwist(lib, command, pose) == STILL
  {
    hide IsRotation, Times, Transposed;
    TimesTransposed(lib.rotationPart(pose.linear));
  }

  // At rest the limiter leaves a pose that is its own reference where it is.
  lemma LimitedAgainstItself(lib: Library, command: Transform, pose: Transform)
    requires lib.Sound() && SoundVectors(lib) && IsHomogeneous(lib.sqrt, command)
    requires command.translation == pose.translation
             && lib.rotationPart(command.linear) == lib.rotationPart(pose.linear)
    ensures LimitPose(lib, CARTESIAN, command, AtRest(pose)) == Accepted(Straightened(lib, pose))
  {
    hide Library.Sound, SoundVectors, IsHomogeneous, CommandedTwist, LimitTwist, Integrate, Straightened, Reduced;
    NoDifference(lib, command, pose);
    LimitTwistOfRest(lib, pose);
    StaysPut(lib, pose);
    BoundsAreUsable();
  }

  lemma BoundsAreUsable()
    ensures CARTESIAN.translational.maxAcceleration != 0.0 && CARTESIAN.rotational.maxAcceleration != 0.0
    ensures Reduced(CARTESIAN.rotational).maxAcceleration != 0.0
  {
  }

  lemma LimitTwistOfRest(lib: Library, pose: Transform)
    requires lib.Sound()
    ensures Reduced(CARTESIAN.rotational).maxAcceleration != 0.0
    ensures LimitTwist(lib.sqrt, CARTESIAN.(rotational := Reduced(CARTESIAN.rotational)), STILL, AtRest(pose)) == STILL
  {
    hide Library.Sound, LimitVector, IsSquareRoot;
    HasSquareRoot(lib);
    LimitOfRest(lib.sqrt, CARTESIAN.translational);
    LimitOfRest(lib.sqrt, Reduced(CARTESIAN.rotational));
  }

  lemma StaysPut(lib: Library, pose: Transform)
    requires lib.Sound()
    ensures Integrate(lib, pose, STILL) == Straightened(lib, pose)
  {
    hide Library.Sound, SquaredNorm, IsSquareRoot, RotationStep, Times, Add, Scale;
    HasSquareRoot(lib);
    ZeroNorm();
    RootOfZero(lib.sqrt);
    NoStep(pose.translation, DELTA_T);
  }

  lemma NoStep(a: Vec3, f: real)
    ensures Add(a, Scale(ZERO, f)) == a
  {
    assert Scale(ZERO, f) == ZERO;
  }

  lemma StraightenedIsRigid(lib: Library, pose: Transform)
    requires lib.Sound()
    ensures Rigid(Straightened(lib, pose)) && IsHomogeneous(lib.sqrt, Straightened(lib, pose))
  {
    hide IsRotation, IsHomogeneous;
    RigidIsHomogeneous(lib.sqrt, Straightened(lib, pose));
  }

  // Wherever the robot stands, the first output is sent as it is, but for the
  // part of its matrix that is no rotation.
  lemma FirstPoseSent(lib: Library, cfg: PoseSettings, start: Transform, first: Transform)
    requires lib.Sound() && SoundVectors(lib) && cfg.limitRate
    ensures PoseSession(lib, cfg, start, [first])
            == if FirstIsHomogeneous(lib, cfg, first)
               then Accepted(EchoPose(lib, AtRest(start), Straightened(lib, first))) else InvalidTransformation
  {
    hide Library.Sound, SoundVectors, FirstIsHomogeneous, PoseCommand, EchoPose, Straightened, AtRest;
    assert [first][..0] == [];
    NoOutputs(lib, cfg, start);
    FirstCommand(lib, cfg, start, first);
  }

  lemma FirstCommand(lib: Library, cfg: PoseSettings, start: Transform, first: Transform)
    requires lib.Sound() && SoundVectors(lib) && cfg.limitRate
    ensures PoseCommand(lib, cfg, AtRest(start).(pose := first), first)
            == if FirstIsHomogeneous(lib, cfg, first) then Accepted(Straightened(lib, first)) else InvalidTransformation
  {
    hide Library.Sound, SoundVectors, IsHomogeneous, AfterFilter, Straightened, PoseTwist, Integrate;
    BoundsAreUsable();
    FilterOfItself(lib, cfg, first);
    if FirstIsHomogeneous(lib, cfg, first) {
      LimitedAgainstItself(lib, AfterFilter(lib, cfg, first, first), first);
      StraightenedIsRigid(lib, first);
    }
  }

  // So the move from the robot is bounded exactly if the output is near it.
  lemma FirstMoveBoundedExactly(lib: Library, cfg: PoseSettings, start: Transform, first: Transform)
    requires lib.Sound() && SoundVectors(lib) && cfg.limitRate && FirstIsHomogeneous(lib, cfg, first)
    ensures var r := PoseSession(lib, cfg, start, [first]);
            r.Accepted? && (BoundedMove(lib, CARTESIAN, start, r.value.pose) <==> NearRobot(lib, start, first))
  {
    hide Library.Sound, SoundVectors, FirstIsHomogeneous, TurnedAtMost, SquaredNorm, Sub, PoseSession;
    FirstPoseSent(lib, cfg, start, first);
  }

  function Shift(x: real): Transform { Transform(IDENTITY, Vec3(x, 0.0, 0.0), ZERO, 1.0) }

  // A robot at rest is sent one metre away in one tick.
  lemma FirstPoseJumps(lib: Library, cfg: PoseSettings)
    requires lib.Sound() && SoundVectors(lib) && cfg.limitRate
    ensures var r := PoseSession(lib, cfg, Shift(0.0), [Shift(1.0)]);
            r.Accepted? && r.value.pose == Shift(1.0) && !BoundedMove(lib, CARTESIAN, Shift(0.0), r.value.pose)
  {
    hide Library.Sound, SoundVectors, FirstIsHomogeneous, PoseSession, Straightened, TurnedAtMost, SquaredNorm, Sub,
        EchoPose;
    ShiftIsKept(lib, cfg, 1.0);
    FirstPoseSent(lib, cfg, Shift(0.0), Shift(1.0));
    EchoKeepsPose(lib);
    OneMetre();
  }

  lemma OneMetre()
    ensures SquaredNorm(Sub(Shift(1.0).translation, Shift(0.0).translation)) == 1.0
  {
  }

  lemma ShiftIsKept(lib: Library, cfg: PoseSettings, x: real)
    requires lib.Sound() && SoundVectors(lib)
    ensures FirstIsHomogeneous(lib, cfg, Shift(x)) && Straightened(lib, Shift(x)) == Shift(x)
  {
    hide Library.Sound, SoundVectors, IsSquareRoot, IsRotation, IsHomogeneous, Filtered;
    IdentityIsKept(lib, cfg.Gain());
    HasSquareRoot(lib);
    RigidIsHomogeneous(lib.sqrt, Shift(x));
    if cfg.filter.Some? {
      FilterKeepsReference(cfg.filter.value, x);
      FilterKeepsReference(cfg.filter.value, 0.0);
    }
  }

  lemma IdentityIsKept(lib: Library, gain: real)
    requires lib.Sound() && SoundVectors(lib)
    ensures IsRotation(IDENTITY) && lib.rotationPart(IDENTITY) == IDENTITY
            && lib.slerp(gain, IDENTITY, IDENTITY) == IDENTITY
  {
    IdentityIsRotation();
    hide IsRotation;
  }

  lemma IdentityIsRotation()
    ensures IsRotation(IDENTITY)
  {
  }

  // ----- Every continuation -----

  // All moves of a session, up to the one that ends it with an exception.
  ghost predicate MovesBounded(lib: Library, cfg: PoseSettings, start: Transform, outs: seq<Transform>) {
    forall n :: 0 <= n < |outs| ==> MoveBounded(lib, cfg, start, outs, n)
  }

  ghost predicate MoveBounded(lib: Library, cfg: PoseSettings, start: Transform, outs: seq<Transform>, n: nat)
    requires n < |outs|
  {
    var before, after := PoseSession(lib, cfg, start, outs[..n]), PoseSession(lib, cfg, start, outs[..n + 1]);
    before.Accepted? && after.Accepted? ==> BoundedMove(lib, CARTESIAN, before.value.pose, after.value.pose)
  }

  ghost predicate Slow(t: Twist) {
    var v, w := CARTESIAN.translational.maxVelocity, FACTOR_ROTATION_POSE_INTERFACE * CARTESIAN.rotational.maxVelocity;
    SquaredNorm(t.linear) <= v * v && SquaredNorm(t.angular) <= w * w
  }

  lemma ScaledBound(a: Vec3, v: real)
    ensures SquaredNorm(a) <= (v * DELTA_T) * (v * DELTA_T) <==> SquaredNorm(Over(a, DELTA_T)) <= v * v
  {
    var b := Over(a, DELTA_T);
    assert Scale(b, DELTA_T) == a;
    SquaredNormScaled(b, DELTA_T);
    hide SquaredNorm;
    assert (v * DELTA_T) * (v * DELTA_T) == DELTA_T * DELTA_T * (v * v);
  }

  // A move is bounded exactly if the twist that makes it is slow.
  lemma BoundedExactlyIfSlow(lib: Library, before: Transform, after: Transform)
    requires lib.Sound() && SoundVectors(lib) && Rigid(after)
    ensures BoundedMove(lib, CARTESIAN, before, after) <==> Slow(CommandedTwist(lib, after, before))
  {
    hide Library.Sound, SoundVectors, SquaredNorm, Over, TurnedAtMost, Times, Transposed, Sub, IsRotation;
    var v, w := CARTESIAN.translational.maxVelocity, FACTOR_ROTATION_POSE_INTERFACE * CARTESIAN.rotational.maxVelocity;
    var r := lib.rotationPart(before.linear);
    RotationParts(lib, before, after);
    assert 0.0 <= w * DELTA_T <= 1.0;
    TurnedExactly(lib, r, after.linear, w * DELTA_T);
    ScaledBound(Sub(after.translation, before.translation), v);
    ScaledBound(lib.rotationVector(Times(after.linear, Transposed(r))), w);
  }

  lemma RotationParts(lib: Library, before: Transform, after: Transform)
    requires lib.Sound() && Rigid(after)
    ensures IsRotation(after.linear) && lib.rotationPart(after.linear) == after.linear
    ensures IsRotation(lib.rotationPart(before.linear))
  {
    hide IsRotation;
  }

  // From a slow state the limiter makes a bounded move, whatever is commanded.
  lemma LaterPose(lib: Library, cfg: PoseSettings, s: PoseMotion, motion: Transform)
    requires lib.Sound() && SoundVectors(lib) && cfg.limitRate && Slow(s.twist)
    ensures var r := PoseCommand(lib, cfg, s, motion);
            r.Accepted? ==> && Rigid(r.value) && BoundedMove(lib, CARTESIAN, s.pose, r.value)
                            && Slow(EchoPose(lib, s, r.value).twist)
  {
    hide Library.Sound, SoundVectors, IsHomogeneous, AfterFilter, Rigid, SquaredNorm, TurnedAtMost, LimitVector, Slow,
        BoundedMove,
         CommandedTwist, Integrate;
    var command := AfterFilter(lib, cfg, motion, s.pose);
    if IsHomogeneous(lib.sqrt, command) {
      var twist := PoseTwist(lib, CARTESIAN, command, s);
      LimitedTwistIsSlow(lib, command, s);
      IntegrateKeepsRigid(lib, s.pose, twist);
      IntegratedIsHomogeneous(lib, s.pose, twist);
      SlowMoveIsBounded(lib, s.pose, twist);
      BoundedExactlyIfSlow(lib, s.pose, Integrate(lib, s.pose, twist));
    }
  }

  lemma SlowMoveIsBounded(lib: Library, last: Transform, twist: Twist)
    requires lib.Sound() && Slow(twist)
    ensures BoundedMove(lib, CARTESIAN, last, Integrate(lib, last, twist))
  {
    hide Library.Sound, SquaredNorm, TurnedAtMost, Integrate;
    IntegrateIsBounded(lib, last, twist, CARTESIAN.translational.maxVelocity,
                       FACTOR_ROTATION_POSE_INTERFACE * CARTESIAN.rotational.maxVelocity);
  }

  lemma LimitedTwistIsSlow(lib: Library, command: Transform, s: PoseMotion)
    requires lib.Sound() && Slow(s.twist)
    ensures Slow(PoseTwist(lib, CARTESIAN, command, s))
  {
    hide IsSquareRoot, SquaredNorm, ApplyAcceleration, CommandedAcceleration, CommandedJerk3, CommandedTwist, Over, Sub;
    var v, w, c := CARTESIAN.translational, Reduced(CARTESIAN.rotational), CommandedTwist(lib, command, s.pose);
    ApplyIsBounded(lib.sqrt, v, CommandedAcceleration(lib.sqrt, v.maxJerk,
        CommandedJerk3(c.linear, Motion3(s.twist.linear, s.acceleration.linear)), s.acceleration.linear),
s.twist.linear);
    ApplyIsBounded(lib.sqrt, w, CommandedAcceleration(lib.sqrt, w.maxJerk,
        CommandedJerk3(c.angular, Motion3(s.twist.angular, s.acceleration.angular)), s.acceleration.angular),
s.twist.angular);
  }

  lemma {:induction false} SessionStaysSlow(lib: Library, cfg: PoseSettings, start: Transform, outs: seq<Transform>)
    requires lib.Sound() && SoundVectors(lib) && cfg.limitRate && outs != []
    requires var r := PoseSession(lib, cfg, start, outs[..1]); r.Accepted? ==> Slow(r.value.twist)
    ensures var r := PoseSession(lib, cfg, start, outs); r.Accepted? ==> Slow(r.value.twist)
    ensures |outs| > 1 ==> MoveBounded(lib, cfg, start, outs, |outs| - 1)
  {
    hide Library.Sound, SoundVectors, Slow, PoseCommand, EchoPose, BoundedMove;
    var n := |outs| - 1;
    assert outs[..n + 1] == outs;
    if n == 0 {
      assert outs[..1] == outs;
    } else {
      assert outs[..n][..1] == outs[..1];
      SessionStaysSlow(lib, cfg, start, outs[..n]);
      var before := PoseSession(lib, cfg, start, outs[..n]);
      if before.Accepted? {
        LaterPose(lib, cfg, before.value, outs[n]);
        EchoKeepsPose(lib);
      }
    }
  }

  lemma EchoKeepsPose(lib: Library)
    ensures forall s: PoseMotion, pose: Transform :: EchoPose(lib, s, pose).pose == pose
  {
  }

  // Every pose sent is rigid, whatever was asked for.
  lemma SessionIsRigid(lib: Library, cfg: PoseSettings, start: Transform, outs: seq<Transform>)
    requires lib.Sound() && cfg.limitRate && outs != []
    ensures var r := PoseSession(lib, cfg, start, outs); r.Accepted? ==> Rigid(r.value.pose)
  {
    hide Library.Sound, IsHomogeneous, AfterFilter, Rigid, PoseTwist, Integrate, CommandedTwist;
    var n := |outs| - 1;
    var before := PoseSession(lib, cfg, start, outs[..n]);
    if before.Accepted? {
      var s := if n == 0 then before.value.(pose := outs[0]) else before.value;
      BoundsAreUsable();
      IntegrateKeepsRigid(lib, s.pose, PoseTwist(lib, CARTESIAN, AfterFilter(lib, cfg, outs[n], s.pose), s));
    }
  }

  // Every move of every continuation is bounded, whatever the callback does,
  // exactly if the first output is near the robot.
  lemma SessionBoundedExactly(lib: Library, cfg: PoseSettings, start: Transform, first: Transform)
    requires lib.Sound() && SoundVectors(lib) && cfg.limitRate && FirstIsHomogeneous(lib, cfg, first)
    ensures (forall outs :: MovesBounded(lib, cfg, start, [first] + outs)) <==> NearRobot(lib, start, first)
  {
    hide Library.Sound, SoundVectors, FirstIsHomogeneous, NearRobot, PoseSession, BoundedMove;
    FirstMoveBoundedExactly(lib, cfg, start, first);
    NoOutputs(lib, cfg, start);
    if NearRobot(lib, start, first) {
      forall outs ensures MovesBounded(lib, cfg, start, [first] + outs) {
        NearSessionBounded(lib, cfg, start, first, [first] + outs);
      }
    } else {
      assert [first] + [] == [first] && [first][..0] == [] && [first][..1] == [first];
      assert !MoveBounded(lib, cfg, start, [first], 0);
      assert !MovesBounded(lib, cfg, start, [first] + []);
    }
  }

  lemma NoOutputs(lib: Library, cfg: PoseSettings, start: Transform)
    ensures PoseSession(lib, cfg, start, []) == Accepted(AtRest(start))
  {
  }

  lemma NearSessionBounded(lib: Library, cfg: PoseSettings, start: Transform, first: Transform, outs: seq<Transform>)
    requires lib.Sound() && SoundVectors(lib) && cfg.limitRate && FirstIsHomogeneous(lib, cfg, first)
    requires NearRobot(lib, start, first) && outs != [] && outs[0] == first
    ensures MovesBounded(lib, cfg, start, outs)
  {
    hide Library.Sound, SoundVectors, FirstIsHomogeneous, NearRobot, PoseSession, BoundedMove, Slow, Rigid;
    FirstMoveBoundedExactly(lib, cfg, start, first);
    FirstIsSlow(lib, cfg, start, first);
    NoOutputs(lib, cfg, start);
    assert outs[..1] == [first] && outs[..0] == [];
    forall n | 0 <= n < |outs| ensures MoveBounded(lib, cfg, start, outs, n) {
      if n > 0 {
        var g := outs[..n + 1];
        assert g[..1] == outs[..1] && g[..n] == outs[..n] && g[..n + 1] == g;
        SessionStaysSlow(lib, cfg, start, g);
      }
    }
  }

  lemma FirstIsSlow(lib: Library, cfg: PoseSettings, start: Transform, first: Transform)
    requires lib.Sound() && SoundVectors(lib) && cfg.limitRate && FirstIsHomogeneous(lib, cfg, first)
    requires NearRobot(lib, start, first)
    ensures var r := PoseSession(lib, cfg, start, [first]); r.Accepted? && Slow(r.value.twist)
  {
    hide Library.Sound, SoundVectors, FirstIsHomogeneous, NearRobot, PoseSession, BoundedMove, Slow, Rigid,
        Straightened;
    FirstPoseSent(lib, cfg, start, first);
    FirstMoveBoundedExactly(lib, cfg, start, first);
    StraightenedIsRigid(lib, first);
    BoundedExactlyIfSlow(lib, start, Straightened(lib, first));
  }

  // For one if the first output is the pose of the robot.
  lemma StartedInPlaceIsBounded(lib: Library, cfg: PoseSettings, start: Transform, outs: seq<Transform>)
    requires lib.Sound() && SoundVectors(lib) && cfg.limitRate && FirstIsHomogeneous(lib, cfg, start)
    ensures MovesBounded(lib, cfg, start, [start] + outs)
  {
    NearItself(lib, start);
    hide Library.Sound, SoundVectors, FirstIsHomogeneous, NearRobot, MovesBounded;
    SessionBoundedExactly(lib, cfg, start, start);
  }

  lemma NearItself(lib: Library, pose: Transform)
    ensures NearRobot(lib, pose, pose)
  {
    hide SquaredNorm, Rodrigues, Times;
    assert Sub(pose.translation, pose.translation) == ZERO;
    ZeroNorm();
  }

  // ----- The limited pose and the commanded one -----

  // The limiter turns by a rotation vector of norm above its threshold, or not at all.
  predicate TurnsAsTold(lib: Library, angular: Vec3) {
    angular == ZERO || lib.sqrt(SquaredNorm(angular)) > NORM_EPS
  }

  lemma ScaledRoot(sqrt: real -> real, v: Vec3)
    requires IsSquareRoot(sqrt)
    ensures sqrt(SquaredNorm(Over(v, DELTA_T))) * DELTA_T == sqrt(SquaredNorm(v))
  {
    var w := Over(v, DELTA_T);
    assert Scale(w, DELTA_T) == v;
    SquaredNormScaled(w, DELTA_T);
    SquaredNormNonNegative(w);
    SquaredNormNonNegative(v);
    hide SquaredNorm, Over, Scale;
    var n, m := sqrt(SquaredNorm(w)), sqrt(SquaredNorm(v));
    assert n >= 0.0 && n * n == SquaredNorm(w) && m >= 0.0 && m * m == SquaredNorm(v);
    RootsAgree(n * DELTA_T, m);
  }

  lemma RootsAgree(a: real, b: real)
    requires a >= 0.0 && b >= 0.0 && a * a == b * b
    ensures a == b
  {
    SquareOrder(a, b);
    SquareOrder(b, a);
  }

  lemma UnitOfScaled(v: Vec3, n: real, m: real)
    requires n > 0.0 && n * DELTA_T == m
    ensures m > 0.0 && Over(Over(v, DELTA_T), n) == Over(v, m)
  {
    QuotientOfQuotient(v.x, n, m);
    QuotientOfQuotient(v.y, n, m);
    QuotientOfQuotient(v.z, n, m);
  }

  lemma QuotientOfQuotient(x: real, n: real, m: real)
    requires n > 0.0 && n * DELTA_T == m
    ensures m > 0.0 && x / DELTA_T / n == x / m
  {
    var q := x / m;
    assert q * m == x;
    assert x / DELTA_T == q * n;
    assert q * n / n == q;
  }

  // Integrating a rotation vector over one tick turns by it.
  lemma StepIsTurn(lib: Library, v: Vec3, rotation: Mat3)
    requires lib.Sound() && TurnsAsTold(lib, Over(v, DELTA_T))
    ensures (if lib.sqrt(SquaredNorm(Over(v, DELTA_T))) > NORM_EPS
             then Times(RotationStep(lib, Over(v, DELTA_T)), rotation) else rotation) == Times(Turn(lib, v), rotation)
  {
    hide Library.Sound, SquaredNorm, Times, Rodrigues, IsSquareRoot, Over;
    HasSquareRoot(lib);
    ScaledRoot(lib.sqrt, v);
    var n := lib.sqrt(SquaredNorm(Over(v, DELTA_T)));
    if n > NORM_EPS {
      UnitOfScaled(v, n, n * DELTA_T);
    } else {
      ZeroNorm();
      RootOfZero(lib.sqrt);
      TimesIdentity(rotation);
    }
  }

  // A command whose twist passes both limiters is reached, in translation and rotation.
  lemma AdmissiblePoseIsReached(lib: Library, command: Transform, s: PoseMotion)
    requires lib.Sound() && SoundVectors(lib) && IsHomogeneous(lib.sqrt, command)
    requires var w := CommandedTwist(lib, command, s.pose);
             && LimitVector(lib.sqrt, CARTESIAN.translational, w.linear,
                            Motion3(s.twist.linear, s.acceleration.linear)) == w.linear
             && LimitVector(lib.sqrt, Reduced(CARTESIAN.rotational), w.angular,
                            Motion3(s.twist.angular, s.acceleration.angular)) == w.angular
    ensures TurnsAsTold(lib, CommandedTwist(lib, command, s.pose).angular) ==>
              LimitPose(lib, CARTESIAN, command, s) == Accepted(Straightened(lib, command))
    ensures !TurnsAsTold(lib, CommandedTwist(lib, command, s.pose).angular) ==>
              LimitPose(lib, CARTESIAN, command, s)
              == Accepted(Straightened(lib, command).(linear := lib.rotationPart(s.pose.linear)))
  {
    hide Library.Sound, SoundVectors, IsHomogeneous, LimitVector, Times, Transposed, Turn, SquaredNorm, RotationStep;
    var before, after := lib.rotationPart(s.pose.linear), lib.rotationPart(command.linear);
    var v := lib.rotationVector(Times(after, Transposed(before)));
    AnyRotationParts(lib, command, s.pose);
    StepBack(command.translation, s.pose.translation);
    if TurnsAsTold(lib, Over(v, DELTA_T)) {
      StepIsTurn(lib, v, before);
    }
  }

  lemma AnyRotationParts(lib: Library, command: Transform, last: Transform)
    requires lib.Sound() && SoundVectors(lib)
    ensures var before, after := lib.rotationPart(last.linear), lib.rotationPart(command.linear);
            after == Times(Turn(lib, lib.rotationVector(Times(after, Transposed(before)))), before)
  {
    hide IsRotation, Times, Transposed, Turn;
    assert IsRotation(lib.rotationPart(last.linear)) && IsRotation(lib.rotationPart(command.linear));
  }

  lemma StepBack(q: Vec3, p: Vec3)
    ensures Add(p, Scale(Over(Sub(q, p), DELTA_T), DELTA_T)) == q
  {
  }

  // Whatever is commanded, the twist from the last pose to the limited one is the limited twist.
  lemma LimitedPoseHasLimitedTwist(lib: Library, last: Transform, twist: Twist)
    requires lib.Sound() && SoundVectors(lib) && Slow(twist) && TurnsAsTold(lib, twist.angular)
    ensures CommandedTwist(lib, Integrate(lib, last, twist), last) == twist
  {
    hide Library.Sound, SoundVectors, Rigid, Times, Transposed, SquaredNorm, Slow, Over, Scale, RotationStep;
    IntegrateKeepsRigid(lib, last, twist);
    RotationParts(lib, last, Integrate(lib, last, twist));
    StepForth(last.translation, twist.linear);
    var r := lib.rotationPart(last.linear);
    TimesTransposed(r);
    if twist.angular == ZERO {
      ZeroNorm();
      HasSquareRoot(lib);
      RootOfZero(lib.sqrt);
      VectorOfNothing(lib);
    } else {
      var step := RotationStep(lib, twist.angular);
      TimesAssociates(step, r, Transposed(r));
      TimesIdentity(step);
      VectorOfStep(lib, twist);
    }
  }

  lemma StepForth(p: Vec3, v: Vec3)
    ensures Over(Sub(Add(p, Scale(v, DELTA_T)), p), DELTA_T) == v
  {
  }

  lemma VectorOfNothing(lib: Library)
    requires SoundVectors(lib)
    ensures Over(lib.rotationVector(IDENTITY), DELTA_T) == ZERO
  {
    hide IsRotation, SquaredNorm, Times, Transposed, Rodrigues, Scale, Over;
    assert lib.rotationVector(IDENTITY) == ZERO;
    ZeroOver(DELTA_T);
  }

  lemma ZeroOver(f: real)
    requires f != 0.0
    ensures Over(ZERO, f) == ZERO
  {
  }

  lemma VectorOfStep(lib: Library, twist: Twist)
    requires lib.Sound() && SoundVectors(lib) && Slow(twist) && lib.sqrt(SquaredNorm(twist.angular)) > NORM_EPS
    ensures Over(lib.rotationVector(RotationStep(lib, twist.angular)), DELTA_T) == twist.angular
  {
    hide Library.Sound, SquaredNorm, Rodrigues, Times, IsSquareRoot;
    HasSquareRoot(lib);
    var w := FACTOR_ROTATION_POSE_INTERFACE * CARTESIAN.rotational.maxVelocity;
    NormBound(lib.sqrt, twist.angular, w);
    UnitLength(lib.sqrt, twist.angular);
    var n := lib.sqrt(SquaredNorm(twist.angular));
    var u, angle := Over(twist.angular, n), DELTA_T * n;
    assert 0.0 <= angle <= 1.0;
    assert lib.rotationVector(Rodrigues(u, lib.sin(angle), lib.cos(angle))) == Scale(u, angle);
    BackToVector(twist.angular, n);
  }

  lemma BackToVector(a: Vec3, n: real)
    requires n > 0.0
    ensures Over(Scale(Over(a, n), DELTA_T * n), DELTA_T) == a
  {
    assert a.x / n * n == a.x && a.y / n * n == a.y && a.z / n * n == a.z;
    assert a.x / n * (DELTA_T * n) == a.x / n * n * DELTA_T;
    assert a.y / n * (DELTA_T * n) == a.y / n * n * DELTA_T;
    assert a.z / n * (DELTA_T * n) == a.z / n * n * DELTA_T;
  }
}
