/**
  The joint-stop guarantee evaluated on the constants the robot ships with:
  the limits in rate_limiting.h and the FR3 joint table of franka_description.
 */
module Fr3Joints {
  import opened Reals
  import opened RateLimiter
  import opened JointStops
  import opened ControlLoop
  import opened JointSessions

  // kMaxJointAcceleration and kMaxJointJerk, equal for all joints.
  const JOINT_ACTUATOR := Actuator(9.999, 4999.999)

  const FR3_JOINTS := [
    JointLimits(2.62, 0.6520, 6.0, 2.9007, -2.9007, 0.001),
    JointLimits(2.62, 0.2500, 2.585, 1.8361, -1.8361, 0.001),
    JointLimits(2.62, 0.2005, 3.5, 2.9007, -2.9007, 0.001),
    JointLimits(2.62, 0.3542, 4.0, -0.1169, -3.0770, 0.001),
    JointLimits(5.26, 0.5738, 17.0, 2.8763, -2.8763, 0.001),
    JointLimits(4.18, 0.4885, 5.5, 4.6216, 0.4398, 0.001),
    JointLimits(5.26, 0.4592, 17.0, 3.0508, -3.0508, 0.001)]

  // The deprecated built-in curves of rate_limiting.h in the same form.
  const BUILT_IN_JOINTS := [
    JointLimits(2.62, 0.30, 6.0, 2.75010, -2.750100, 0.001),
    JointLimits(2.62, 0.20, 2.585, 1.79180, -1.791800, 0.001),
    JointLimits(2.62, 0.20, 3.5, 2.90650, -2.906500, 0.001),
    JointLimits(2.62, 0.30, 4.0, -0.1458, -3.048100, 0.001),
    JointLimits(5.26, 0.35, 17.0, 2.81010, -2.810100, 0.001),
    JointLimits(4.18, 0.35, 5.5, 4.52050, 0.54092, 0.001),
    JointLimits(5.26, 0.35, 17.0, 3.01960, -3.019600, 0.001)]

  // The control loop with its limiter on, at any setting of the filter.
  function LimitedLoop(gain: real, joints: seq<JointLimits>): Settings { Settings(gain, true, joints, JOINT_ACTUATOR) }

  // No session that starts at the position of the robot passes a stop.
  ghost predicate StopSafe(sqrt: real -> real, cfg: Settings, i: nat)
    requires cfg.Valid() && i < 7
  {
    var p := cfg.limits[i];
    forall q0: real, outs: seq<real> :: p.lowerPosition <= q0 <= p.upperPosition ==>
      p.lowerPosition
      <= PositionSession(sqrt, cfg, i, JointState(q0, 0.0, 0.0), [q0] + outs).position
      <= p.upperPosition
  }

  // ----- Joints whose braking curve asks for more than the acceleration limit -----

  // Joints 5 and 7, in either table.
  ghost predicate FastJoint(p: JointLimits) {
    && p.maxVelocity == 5.26 && p.decelerationLimit == 17.0 && p.tolerance == 0.001
    && 0.3 <= p.velocityOffset <= 0.6
    && 2.81 <= p.upperPosition <= 3.06 && p.lowerPosition <= -2.81
  }

  // Position after n ticks of a ramp at 4 rad/s^2 from -1.6 rad.
  function RampPosition(n: nat): real { -1.6 + 0.000002 * (n * (n + 1)) as real }

  function RampState(n: nat): JointState {
    JointState(RampPosition(n), 0.004 * n as real, if n == 0 then 0.0 else 4.0)
  }

  function Ramp(n: nat): seq<real> {
    if n == 0 then [] else Ramp(n - 1) + [RampPosition(n)]
  }

  lemma LimitsOnRamp(sqrt: real -> real, p: JointLimits, q: real)
    requires IsSquareRoot(sqrt) && FastJoint(p) && -1.6 <= q <= 1.7826
    ensures UpperVelocityLimit(sqrt, p, q) == 5.259
    ensures LowerVelocityLimit(sqrt, p, q) <= 0.0
  {
    var above, below := BrakingSpeed(sqrt, 17.0, p.upperPosition - q), BrakingSpeed(sqrt, 17.0, -p.lowerPosition + q);
    assert 5.86 <= above by {
      BrakingSpeedSquared(sqrt, 17.0, p.upperPosition - q);
      hide BrakingSpeed, IsSquareRoot;
      assert 5.86 * 5.86 <= 34.0 * (p.upperPosition - q);
      SquareOrder(5.86, above);
    }
    assert 0.7 <= below by {
      BrakingSpeedSquared(sqrt, 17.0, -p.lowerPosition + q);
      hide BrakingSpeed, IsSquareRoot;
      SquareOrder(0.7, below);
    }
    hide BrakingSpeed, IsSquareRoot;
  }

  lemma RampBounds(n: nat)
    requires n <= 1300
    ensures -1.6 <= RampPosition(n) <= 1.7826
  {
    TriangularBound(n, 1300);
  }

  lemma TriangularBound(n: nat, m: nat)
    requires n <= m
    ensures n * (n + 1) <= m * (m + 1)
  {
  }

  lemma GainOnRamp(k: real, lim: Limits, v: real)
    requires k == 4999.999 / 9.999 && lim.maxAcceleration == 9.999 && lim.upper == 5.259 && lim.lower <= 0.0 <= v <= 5.2
    ensures SafeMinAcceleration(k, lim, v) <= 4.0 <= SafeMaxAcceleration(k, lim, v)
  {
    assert k > 500.0;
    ScaleOrder(k, 0.059, lim.upper - v);
    ScaleOrder(k, lim.lower - v, 0.0);
  }

  lemma RampTick(sqrt: real -> real, p: JointLimits, n: nat)
    requires IsSquareRoot(sqrt) && FastJoint(p) && n < 1300
    ensures JointTick(sqrt, p, JOINT_ACTUATOR, RampState(n), RampPosition(n + 1)) == RampState(n + 1)
  {
    hide IsSquareRoot, FastJoint, UpperVelocityLimit, LowerVelocityLimit, SafeMinAcceleration, SafeMaxAcceleration;
    RampBounds(n);
    LimitsOnRamp(sqrt, p, RampPosition(n));
    var s, lim := RampState(n), LimitsAt(sqrt, p, JOINT_ACTUATOR, RampPosition(n));
    GainOnRamp(4999.999 / 9.999, lim, s.velocity);
    RampStep(n);
    TickAdvances(sqrt, p, JOINT_ACTUATOR, s, RampPosition(n + 1));
    assert CommandedJerk((RampPosition(n + 1) - RampPosition(n)) / DELTA_T,
        Motion(s.velocity, s.acceleration)) == (4.0 - s.acceleration) / DELTA_T;
  }

  lemma RampStep(n: nat)
    ensures RampPosition(n + 1) - RampPosition(n) == 0.000004 * (n + 1) as real
    ensures Advance(RampState(n), 4.0) == RampState(n + 1)
  {
    assert (n + 1) * (n + 2) == n * (n + 1) + 2 * (n + 1);
  }

  lemma {:induction false} RampRun(sqrt: real -> real, p: JointLimits, n: nat)
    requires IsSquareRoot(sqrt) && FastJoint(p) && n <= 1300
    ensures JointRun(sqrt, p, JOINT_ACTUATOR, JointState(-1.6, 0.0, 0.0), Ramp(n)) == RampState(n)
  {
    hide IsSquareRoot, FastJoint, JointTick;
    if n == 0 {
      assert RampState(0) == JointState(-1.6, 0.0, 0.0);
    } else {
      RampRun(sqrt, p, n - 1);
      RampTick(sqrt, p, n - 1);
      assert Ramp(n)[..|Ramp(n)| - 1] == Ramp(n - 1);
    }
  }

  // The acceleration limit bounds how fast any callback can brake.
  lemma BrakesAtMost(sqrt: real -> real, p: JointLimits, s: JointState, command: real)
    ensures var s' := JointTick(sqrt, p, JOINT_ACTUATOR, s, command);
            && s'.velocity >= s.velocity - 0.009999
            && s'.position == s.position + s'.velocity * 0.001
  {
    hide UpperVelocityLimit, LowerVelocityLimit;
    TickAdvances(sqrt, p, JOINT_ACTUATOR, s, command);
    var lim, m := LimitsAt(sqrt, p, JOINT_ACTUATOR, s.position), Motion(s.velocity, s.acceleration);
    ClampedAboveMin(JOINT_ACTUATOR.maxJerk / JOINT_ACTUATOR.maxAcceleration, lim,
                    CommandedJerk((command - s.position) / DELTA_T, m), m);
  }

  lemma ClampedAboveMin(k: real, lim: Limits, jerk: real, m: Motion)
    ensures ClampedAcceleration(k, lim, jerk, m) >= -lim.maxAcceleration
  {
  }

  // Distance covered in m ticks of the hardest braking from 5.2 rad/s at 1.7826 rad.
  function BrakingBound(m: nat): real { 1.7826 + 0.0052 * m as real - 0.0000049995 * (m * (m + 1)) as real }

  lemma {:induction false} BrakingRun(sqrt: real -> real, p: JointLimits, commands: seq<real>)
    requires IsSquareRoot(sqrt) && FastJoint(p)
    ensures var s := JointRun(sqrt, p, JOINT_ACTUATOR, JointState(-1.6, 0.0, 0.0), Ramp(1300) + commands);
            && s.velocity >= 5.2 - 0.009999 * |commands| as real
            && s.position >= BrakingBound(|commands|)
  {
    hide IsSquareRoot, FastJoint, JointTick;
    if commands == [] {
      RampRun(sqrt, p, 1300);
      assert Ramp(1300) + commands == Ramp(1300);
    } else {
      var n := |commands| - 1;
      var all := Ramp(1300) + commands;
      assert all[..|all| - 1] == Ramp(1300) + commands[..n];
      BrakingRun(sqrt, p, commands[..n]);
      BrakesAtMost(sqrt, p, JointRun(sqrt, p, JOINT_ACTUATOR, JointState(-1.6, 0.0, 0.0), all[..|all| - 1]),
                   commands[n]);
      assert (n + 1) * (n + 2) == n * (n + 1) + 2 * (n + 1);
    }
  }

  // After the ramp every callback has crossed the stop 520 ticks later.
  lemma FastJointCrosses(sqrt: real -> real, p: JointLimits, commands: seq<real>)
    requires IsSquareRoot(sqrt) && FastJoint(p) && |commands| == 520
    ensures JointRun(sqrt, p, JOINT_ACTUATOR, JointState(-1.6, 0.0, 0.0), Ramp(1300) + commands).position
            > p.upperPosition
  {
    BrakingRun(sqrt, p, commands);
    assert BrakingBound(520) > 3.06;
  }

  // A session reaches this run after a first output that keeps the joint in place.
  lemma FastSessionCrosses(sqrt: real -> real, cfg: Settings, i: nat) returns (outs: seq<real>)
    requires IsSquareRoot(sqrt) && cfg.Valid() && i < 7 && cfg.limitRate && cfg.gain > 0.0
    requires cfg.actuator == JOINT_ACTUATOR && FastJoint(cfg.limits[i])
    ensures PositionSession(sqrt, cfg, i, JointState(-1.6, 0.0, 0.0), [-1.6] + outs).position
            > cfg.limits[i].upperPosition
  {
    hide IsSquareRoot, FastJoint, PositionSession, JointRun;
    var rest, none := JointState(-1.6, 0.0, 0.0), seq(520, _ => 0.0);
    FastJointWaits(sqrt, cfg, i);
    FastJointCrosses(sqrt, cfg.limits[i], none);
    outs := RunIsSession(sqrt, cfg, i, rest, -1.6, Ramp(1300) + none);
  }

  lemma FastJointWaits(sqrt: real -> real, cfg: Settings, i: nat)
    requires IsSquareRoot(sqrt) && cfg.Valid() && i < 7 && cfg.limitRate
    requires cfg.actuator == JOINT_ACTUATOR && FastJoint(cfg.limits[i])
    ensures PositionSession(sqrt, cfg, i, JointState(-1.6, 0.0, 0.0), [-1.6]) == JointState(-1.6, 0.0, 0.0)
  {
    hide IsSquareRoot, FastJoint, UpperVelocityLimit, LowerVelocityLimit, LimitedPosition, PositionSession;
    var p := cfg.limits[i];
    LimitsOnRamp(sqrt, p, -1.6);
    StaysAtRest(sqrt, p, JOINT_ACTUATOR, -1.6);
    NoPull(JOINT_ACTUATOR.maxJerk / JOINT_ACTUATOR.maxAcceleration, UpperVelocityLimit(sqrt, p, -1.6),
           LowerVelocityLimit(sqrt, p, -1.6));
    FirstSentPosition(sqrt, cfg, i, -1.6, -1.6);
    FirstStateAdvances(sqrt, cfg, i, -1.6, -1.6);
  }

  lemma NoPull(k: real, u: real, l: real)
    requires k > 0.0 && l <= 0.0 <= u
    ensures Pull(k, 9.999, u, l) == 0.0
  {
    ScaleOrder(k, 0.0, u);
    ScaleOrder(k, l, 0.0);
  }

  lemma SafeExactlyWhenSlow(sqrt: real -> real, cfg: Settings, i: nat)
    requires IsSquareRoot(sqrt) && cfg.Valid() && i < 7 && cfg.limitRate && cfg.gain > 0.0
    requires cfg.actuator == JOINT_ACTUATOR && (FastJoint(cfg.limits[i]) || Stoppable(cfg.limits[i], JOINT_ACTUATOR))
    ensures StopSafe(sqrt, cfg, i) <==> Stoppable(cfg.limits[i], JOINT_ACTUATOR)
  {
    hide IsSquareRoot, PositionSession;
    var p := cfg.limits[i];
    if FastJoint(p) {
      var outs := FastSessionCrosses(sqrt, cfg, i);
      assert !StopSafe(sqrt, cfg, i);
    } else {
      hide Stoppable, FastJoint;
      forall q0: real, outs: seq<real> | p.lowerPosition <= q0 <= p.upperPosition
        ensures p.lowerPosition
                <= PositionSession(sqrt, cfg, i, JointState(q0, 0.0, 0.0), [q0] + outs).position
                <= p.upperPosition
      {
        StartedInPlaceStaysWithinStops(sqrt, cfg, i, q0, outs);
      }
    }
  }

  lemma SlowJointIsStoppable(i: nat)
    requires i < 7
    ensures FR3_JOINTS[i].decelerationLimit <= JOINT_ACTUATOR.maxAcceleration
            <==> Stoppable(FR3_JOINTS[i], JOINT_ACTUATOR)
    ensures BUILT_IN_JOINTS[i].decelerationLimit <= JOINT_ACTUATOR.maxAcceleration
            <==> Stoppable(BUILT_IN_JOINTS[i], JOINT_ACTUATOR)
    ensures FastJoint(FR3_JOINTS[i]) || FR3_JOINTS[i].decelerationLimit <= JOINT_ACTUATOR.maxAcceleration
    ensures FastJoint(BUILT_IN_JOINTS[i]) || BUILT_IN_JOINTS[i].decelerationLimit <= JOINT_ACTUATOR.maxAcceleration
  {
  }

  // Of the robot's joints exactly those whose braking curve decelerates no
  // harder than the acceleration limit cannot be driven past a stop by a
  // session that starts where the robot is.
  lemma ExactlyTheSlowJoints(sqrt: real -> real, gain: real, i: nat)
    requires IsSquareRoot(sqrt) && gain > 0.0 && i < 7
    ensures StopSafe(sqrt, LimitedLoop(gain, FR3_JOINTS), i)
            <==> FR3_JOINTS[i].decelerationLimit <= JOINT_ACTUATOR.maxAcceleration
    ensures StopSafe(sqrt, LimitedLoop(gain, BUILT_IN_JOINTS), i)
            <==> BUILT_IN_JOINTS[i].decelerationLimit <= JOINT_ACTUATOR.maxAcceleration
  {
    hide IsSquareRoot, StopSafe;
    SlowJointIsStoppable(i);
    hide Stoppable, FastJoint;
    SafeExactlyWhenSlow(sqrt, LimitedLoop(gain, FR3_JOINTS), i);
    SafeExactlyWhenSlow(sqrt, LimitedLoop(gain, BUILT_IN_JOINTS), i);
  }

  // A command of zeros lies outside the range of joints 4 and 6.
  lemma ZeroIsOutOfRange()
    ensures FR3_JOINTS[3].upperPosition < 0.0 < FR3_JOINTS[5].lowerPosition
    ensures BUILT_IN_JOINTS[3].upperPosition < 0.0 < BUILT_IN_JOINTS[5].lowerPosition
  {
  }

  lemma AllJointsHaveRoom(i: nat)
    requires i < 7
    ensures RoomBetweenStops(FR3_JOINTS[i], JOINT_ACTUATOR) && RoomBetweenStops(BUILT_IN_JOINTS[i], JOINT_ACTUATOR)
    ensures 0.0 < FirstSlack(FR3_JOINTS[i], JOINT_ACTUATOR)
            == FirstSlack(BUILT_IN_JOINTS[i], JOINT_ACTUATOR) < 0.00000051
  {
  }

  // No joint is safe from its first command: it is limited against itself, so
  // wherever the robot stands, the joint is sent past its stop exactly if the
  // first output asks for more than about half a microradian beyond it.
  lemma FirstCommandOnRobot(sqrt: real -> real, gain: real, i: nat, q0: real, first: real)
    requires IsSquareRoot(sqrt) && i < 7
    ensures var p := FR3_JOINTS[i];
            var slack := FirstSlack(p, JOINT_ACTUATOR);
            p.lowerPosition
            <= PositionSession(sqrt, LimitedLoop(gain, FR3_JOINTS), i, JointState(q0, 0.0, 0.0), [first]).position
            <= p.upperPosition
            <==> p.lowerPosition - slack <= first <= p.upperPosition + slack
  {
    hide IsSquareRoot, RoomBetweenStops, FirstSlack, PositionSession;
    AllJointsHaveRoom(i);
    FirstPositionInsideExactly(sqrt, LimitedLoop(gain, FR3_JOINTS), i, q0, first);
  }

  // The first joint at rest at zero, sent to ten radians at once.
  lemma FirstCommandCrosses(sqrt: real -> real)
    ensures PositionSession(sqrt, LimitedLoop(1.0, FR3_JOINTS), 0, JointState(0.0, 0.0, 0.0), [10.0]).position
            > FR3_JOINTS[0].upperPosition
  {
  }

  // ----- Jerk beyond its limit -----

  // A ramp of the first joint at 9 rad/s^2 from 2.2187 rad, reached in two jerks.
  function SteepPosition(n: nat): real { 2.2187 + 0.0000045 * (n * n) as real }

  function SteepState(n: nat): JointState {
    JointState(SteepPosition(n), if n == 0 then 0.0 else 0.0045 * (2 * n - 1) as real,
               if n == 0 then 0.0 else if n == 1 then 4.5 else 9.0)
  }

  function SteepRamp(n: nat): seq<real> {
    if n == 0 then [] else SteepRamp(n - 1) + [SteepPosition(n)]
  }

  lemma SteepBounds(n: nat)
    requires n <= 199
    ensures 2.2187 <= SteepPosition(n) <= 2.3969045 && SteepState(n).velocity <= 1.7865
  {
    SquareGrows(n, 199);
  }

  lemma SquareGrows(n: nat, m: nat)
    requires n <= m
    ensures n * n <= m * m
  {
  }

  lemma LimitsOnSteepRamp(sqrt: real -> real, q: real)
    requires IsSquareRoot(sqrt) && 2.2187 <= q <= 2.3987
    ensures q <= 2.3969045 ==> UpperVelocityLimit(sqrt, FR3_JOINTS[0], q) >= 1.8046
    ensures q == 2.3987 ==> UpperVelocityLimit(sqrt, FR3_JOINTS[0], q) <= 1.8034
    ensures LowerVelocityLimit(sqrt, FR3_JOINTS[0], q) <= 0.0
  {
    var above, below := BrakingSpeed(sqrt, 6.0, 2.9007 - q), BrakingSpeed(sqrt, 6.0, 2.9007 + q);
    BrakingSpeedSquared(sqrt, 6.0, 2.9007 - q);
    BrakingSpeedSquared(sqrt, 6.0, 2.9007 + q);
    SteepLimits(sqrt, q);
    hide BrakingSpeed, IsSquareRoot, UpperVelocityLimit, LowerVelocityLimit;
    SquareOrder(0.7, below);
    if q <= 2.3969045 {
      assert 2.4576 * 2.4576 <= 12.0 * (2.9007 - q);
      SquareOrder(2.4576, above);
    }
    if q == 2.3987 {
      SquareOrder(above, 2.4564);
    }
  }

  lemma SteepLimits(sqrt: real -> real, q: real)
    ensures UpperVelocityLimit(sqrt, FR3_JOINTS[0], q)
            == Min(2.62, Max(0.0, -0.652 + BrakingSpeed(sqrt, 6.0, 2.9007 - q))) - 0.001
    ensures LowerVelocityLimit(sqrt, FR3_JOINTS[0], q)
            == Max(-2.62, Min(0.0, 0.652 - BrakingSpeed(sqrt, 6.0, 2.9007 + q))) + 0.001
  {
    assert -FR3_JOINTS[0].lowerPosition + q == 2.9007 + q;
  }

  lemma GainOnSteepRamp(k: real, lim: Limits, v: real, a: real)
    requires k == 4999.999 / 9.999 && lim.maxAcceleration == 9.999 && lim.upper >= 1.8046
             && lim.lower <= 0.0 <= v <= 1.7865
    requires 0.0 <= a <= 9.0
    ensures SafeMinAcceleration(k, lim, v) <= a <= SafeMaxAcceleration(k, lim, v)
  {
    assert k > 500.0;
    ScaleOrder(k, 0.0181, lim.upper - v);
    ScaleOrder(k, lim.lower - v, 0.0);
  }

  lemma SteepStep(n: nat)
    ensures SteepPosition(n + 1) - SteepPosition(n) == 0.0000045 * (2 * n + 1) as real
    ensures Advance(SteepState(n), SteepState(n + 1).acceleration) == SteepState(n + 1)
  {
    assert (n + 1) * (n + 1) == n * n + 2 * n + 1;
  }

  lemma SteepTick(sqrt: real -> real, n: nat)
    requires IsSquareRoot(sqrt) && n < 200
    ensures JointTick(sqrt, FR3_JOINTS[0], JOINT_ACTUATOR, SteepState(n), SteepPosition(n + 1)) == SteepState(n + 1)
  {
    hide IsSquareRoot, UpperVelocityLimit, LowerVelocityLimit, SafeMinAcceleration, SafeMaxAcceleration;
    SteepBounds(n);
    LimitsOnSteepRamp(sqrt, SteepPosition(n));
    var s, a := SteepState(n), SteepState(n + 1).acceleration;
    GainOnSteepRamp(4999.999 / 9.999, LimitsAt(sqrt, FR3_JOINTS[0], JOINT_ACTUATOR, SteepPosition(n)), s.velocity, a);
    SteepStep(n);
    TickAdvances(sqrt, FR3_JOINTS[0], JOINT_ACTUATOR, s, SteepPosition(n + 1));
    assert CommandedJerk((SteepPosition(n + 1) - SteepPosition(n)) / DELTA_T,
        Motion(s.velocity, s.acceleration)) == (a - s.acceleration) / DELTA_T;
  }

  lemma {:induction false} SteepRun(sqrt: real -> real, n: nat)
    requires IsSquareRoot(sqrt) && n <= 200
    ensures JointRun(sqrt, FR3_JOINTS[0], JOINT_ACTUATOR, JointState(2.2187, 0.0, 0.0), SteepRamp(n)) == SteepState(n)
  {
    hide IsSquareRoot, JointTick;
    if n == 0 {
      assert SteepState(0) == JointState(2.2187, 0.0, 0.0);
    } else {
      SteepRun(sqrt, n - 1);
      SteepTick(sqrt, n - 1);
      assert SteepRamp(n)[..|SteepRamp(n)| - 1] == SteepRamp(n - 1);
    }
  }

  // At the end of this ramp every command breaks the jerk limit of 4999.999:
  // the acceleration falls by more than 5 within a thousandth of a second.
  lemma JerkLimitIsBroken(sqrt: real -> real, next: real)
    requires IsSquareRoot(sqrt)
    ensures var s := JointRun(sqrt, FR3_JOINTS[0], JOINT_ACTUATOR, JointState(2.2187, 0.0, 0.0), SteepRamp(200));
            s.acceleration - JointTick(sqrt, FR3_JOINTS[0], JOINT_ACTUATOR, s, next).acceleration > 5.0
  {
    hide IsSquareRoot, UpperVelocityLimit, LowerVelocityLimit, JointRun;
    SteepRun(sqrt, 200);
    var s, lim := SteepState(200), LimitsAt(sqrt, FR3_JOINTS[0], JOINT_ACTUATOR, 2.3987);
    assert s == JointState(2.3987, 1.7955, 9.0);
    LimitsOnSteepRamp(sqrt, 2.3987);
    TickAdvances(sqrt, FR3_JOINTS[0], JOINT_ACTUATOR, s, next);
    LateBraking(4999.999 / 9.999, lim, CommandedJerk((next - s.position) / DELTA_T, Motion(1.7955, 9.0)));
  }

  lemma LateBraking(k: real, lim: Limits, jerk: real)
    requires k == 4999.999 / 9.999 && lim.upper <= 1.8034 && lim.lower <= 0.0 && lim.maxAcceleration == 9.999
    ensures ClampedAcceleration(k, lim, jerk, Motion(1.7955, 9.0)) < 4.0
  {
    assert 500.0 < k < 500.1;
    ScaleOrder(k, lim.upper - 1.7955, 0.0079);
    ScaleOrder(k, lim.lower - 1.7955, 0.0);
  }
}
