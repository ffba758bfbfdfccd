/**
  The position-dependent velocity limits of libfranka/src/joint_velocity_limits.cpp
  and the joint motion that control_loop.cpp closes around them.
 */
module JointStops {
  import opened Reals
  import opened RateLimiter

  datatype JointLimits = JointLimits(
    maxVelocity: real, velocityOffset: real, decelerationLimit: real,
    upperPosition: real, lowerPosition: real, tolerance: real)

  // The square root of twice the deceleration times the distance to a stop.
  function BrakingSpeed(sqrt: real -> real, d: real, distance: real): real {
    sqrt(Max(0.0, 2.0 * d * distance))
  }

  function UpperVelocityLimit(sqrt: real -> real, p: JointLimits, q: real): real {
    Min(p.maxVelocity, Max(0.0, -p.velocityOffset + BrakingSpeed(sqrt, p.decelerationLimit, p.upperPosition - q)))
    - p.tolerance
  }

  function LowerVelocityLimit(sqrt: real -> real, p: JointLimits, q: real): real {
    Max(-p.maxVelocity, Min(0.0, p.velocityOffset - BrakingSpeed(sqrt, p.decelerationLimit, -p.lowerPosition + q)))
    + p.tolerance
  }

  // A non-negative speed is allowed at a position exactly if, increased by the tolerance,
  // it is within the maximal velocity, and the joint could come from that speed and the
  // offset to a stand before the upper stop with the deceleration limit.
  lemma AllowedExactlyIfStoppable(sqrt: real -> real, p: JointLimits, q: real, v: real)
    requires IsSquareRoot(sqrt) && p.velocityOffset >= 0.0
    ensures var w := v + p.tolerance;
            w > 0.0 ==>
              (v <= UpperVelocityLimit(sqrt, p, q)
               <==> w <= p.maxVelocity && (w + p.velocityOffset) * (w + p.velocityOffset)
                                          <= 2.0 * p.decelerationLimit * (p.upperPosition - q))
  {
    var s, x, y := BrakingSpeed(sqrt, p.decelerationLimit, p.upperPosition - q), v + p.tolerance + p.velocityOffset,
        2.0 * p.decelerationLimit * (p.upperPosition - q);
    assert s >= 0.0 && s * s == Max(0.0, y);
    hide BrakingSpeed;
    if v + p.tolerance > 0.0 {
      RootOrder(x, s, y);
    }
  }

  lemma RootOrder(x: real, s: real, y: real)
    requires x > 0.0 && s >= 0.0 && s * s == Max(0.0, y)
    ensures x <= s <==> x * x <= y
  {
    ProductPositive(x, x);
    if x <= s {
      ProductNonNegative(s - x, s + x);
      assert (s - x) * (s + x) == s * s - x * x;
    } else {
      ProductPositive(x - s, x + s);
      assert (x - s) * (x + s) == x * x - s * s;
    }
  }

  // ----- The loop for one joint -----

  datatype Actuator = Actuator(maxAcceleration: real, maxJerk: real)

  datatype JointState = JointState(position: real, velocity: real, acceleration: real)

  function LimitsAt(sqrt: real -> real, p: JointLimits, act: Actuator, q: real): Limits {
    Limits(UpperVelocityLimit(sqrt, p, q), LowerVelocityLimit(sqrt, p, q), act.maxAcceleration, act.maxJerk)
  }

  function LimitedPosition(sqrt: real -> real, p: JointLimits, act: Actuator, s: JointState, command: real): real
    requires act.maxAcceleration != 0.0
  {
    LimitPosition(LimitsAt(sqrt, p, act, s.position), command, s.position, Motion(s.velocity, s.acceleration))
  }

  // The robot's desired position, velocity and acceleration follow the limited command.
  function Echo(s: JointState, position: real): JointState {
    var v := (position - s.position) / DELTA_T;
    JointState(position, v, (v - s.velocity) / DELTA_T)
  }

  function JointTick(sqrt: real -> real, p: JointLimits, act: Actuator, s: JointState, command: real): JointState
    requires act.maxAcceleration != 0.0
  {
    Echo(s, LimitedPosition(sqrt, p, act, s, command))
  }

  function JointRun(sqrt: real -> real, p: JointLimits, act: Actuator, start: JointState,
                    commands: seq<real>): JointState
    requires act.maxAcceleration != 0.0
  {
    if commands == [] then start
    else JointTick(sqrt, p, act, JointRun(sqrt, p, act, start, commands[..|commands| - 1]), commands[|commands| - 1])
  }

  function TickAcceleration(sqrt: real -> real, p: JointLimits, act: Actuator, s: JointState, command: real): real
    requires act.maxAcceleration != 0.0
  {
    LimitAcceleration(LimitsAt(sqrt, p, act, s.position), (command - s.position) / DELTA_T,
                      Motion(s.velocity, s.acceleration))
  }

  function Advance(s: JointState, a: real): JointState {
    var v := s.velocity + a * DELTA_T;
    JointState(s.position + v * DELTA_T, v, a)
  }

  lemma TickAdvances(sqrt: real -> real, p: JointLimits, act: Actuator, s: JointState, command: real)
    requires act.maxAcceleration != 0.0
    ensures JointTick(sqrt, p, act, s, command) == Advance(s, TickAcceleration(sqrt, p, act, s, command))
  {
  }

  // ----- Keeping clear of the upper stop -----

  // b is the amount by which velocity may exceed the moving limit. The last
  // conjunct keeps enough distance for velocity to decay once the limit is zero.
  ghost predicate ClearOfStop(sqrt: real -> real, p: JointLimits, k: real, b: real, q: real, v: real) {
    && v - UpperVelocityLimit(sqrt, p, q) <= b
    && v <= p.maxVelocity - p.tolerance
    && Room(k, DELTA_T, p.upperPosition - q, v)
  }

  ghost predicate Braking(k: real, b: real, p: JointLimits) {
    && 0.0 < k && k * DELTA_T <= 1.0
    && 0.0 < p.decelerationLimit == k * b
    && 0.0 <= p.tolerance <= b
    && p.tolerance <= p.maxVelocity
    && 3.0 * b <= 2.0 * p.velocityOffset
  }

  // s is the braking speed at the stop distance, v the next velocity.
  lemma StoppingRoom(k: real, b: real, d: real, o: real, s: real, distance: real, v: real)
    requires k > 0.0 && b > 0.0 && d == k * b && 3.0 * b <= 2.0 * o
    requires s * s == 2.0 * d * distance
    requires v <= s - o + b
    ensures v <= k * distance
  {
    SquareNonNegative(s - b);
    assert (s - b) * (s - b) == s * s - 2.0 * b * s + b * b;
    assert s * s == 2.0 * b * (k * distance);
    assert 2.0 * b * (k * distance) >= 2.0 * b * (s - b / 2.0);
    CancelFactor(2.0 * b, s - b / 2.0, k * distance);
  }

  // Moving for dt at most at the braking speed lowers the braking speed by at most d*dt.
  lemma BrakingSpeedDrop(d: real, dt: real, s: real, s': real, v: real)
    requires d > 0.0 && dt > 0.0 && s' >= 0.0
    requires s' * s' >= s * s - 2.0 * d * v * dt
    requires v <= s - d * dt / 2.0
    ensures s' >= s - d * dt
  {
    ProductPositive(d, dt);
    ScaleOrder(2.0 * (d * dt), v, s - d * dt / 2.0);
    assert s' * s' >= (s - d * dt) * (s - d * dt);
    SquareOrder(s - d * dt, s');
  }

  // One tick of the limiter moves the velocity v towards the limit u by a fraction k*dt.
  lemma MovesTowardsLimit(k: real, dt: real, u: real, v: real, a: real, m: real)
    requires k > 0.0 && dt > 0.0 && k * dt <= 1.0
    requires v <= m && a <= k * (u - v)
    ensures v + a * dt <= m + (k * dt) * (u - m)
  {
    var f := k * dt;
    ScaleOrder(dt, a, k * (u - v));
    ScaleOrder(1.0 - f, v, m);
    assert dt * (k * (u - v)) == f * u - f * v;
    assert (1.0 - f) * v == v - f * v;
    assert (1.0 - f) * m == m - f * m;
    assert f * (u - m) == f * u - f * m;
  }

  lemma ExcessShrinks(k: real, b: real, d: real, dt: real, u: real, v: real, a: real)
    requires k > 0.0 && dt > 0.0 && k * dt <= 1.0 && d == k * b
    requires v - u <= b && a <= k * (u - v)
    ensures v + a * dt <= u + b - d * dt
  {
    MovesTowardsLimit(k, dt, u, v, a, u + b);
    assert (k * dt) * (u - (u + b)) == -(k * b) * dt;
  }

  lemma DecaysAtZeroLimit(k: real, dt: real, u: real, v: real, a: real)
    requires k > 0.0 && dt > 0.0 && k * dt <= 1.0
    requires u <= 0.0 && a <= k * (u - v)
    ensures v + a * dt <= v * (1.0 - k * dt)
  {
    ProductPositive(k, dt);
    MovesTowardsLimit(k, dt, u, v, a, v);
    ScaleOrder(k * dt, u - v, -v);
    assert v * (1.0 - k * dt) == v + (k * dt) * (-v);
  }

  lemma StaysBelow(k: real, dt: real, u: real, v: real, a: real, m: real)
    requires k > 0.0 && dt > 0.0 && k * dt <= 1.0
    requires v <= m && u <= m && a <= k * (u - v)
    ensures v + a * dt <= m
  {
    ProductPositive(k, dt);
    MovesTowardsLimit(k, dt, u, v, a, m);
    ScaleOrder(k * dt, u - m, 0.0);
  }

  lemma BrakingSpeedSquared(sqrt: real -> real, d: real, distance: real)
    requires IsSquareRoot(sqrt) && d > 0.0 && distance >= 0.0
    ensures BrakingSpeed(sqrt, d, distance) >= 0.0
    ensures BrakingSpeed(sqrt, d, distance) * BrakingSpeed(sqrt, d, distance) == 2.0 * d * distance
  {
    ProductNonNegative(2.0 * d, distance);
  }

  // Far from the stop the limit u lies below the braking curve s - o.
  lemma RoomFarFromStop(k: real, b: real, d: real, o: real, dt: real, s: real, distance: real, u: real, v: real,
                        a: real)
    requires k > 0.0 && dt > 0.0 && k * dt <= 1.0 && d == k * b > 0.0 && b > 0.0 && 3.0 * b <= 2.0 * o
    requires s * s == 2.0 * d * distance && u <= s - o
    requires v - u <= b && a <= k * (u - v)
    ensures v + a * dt <= k * distance
    ensures v + a * dt <= s - d * dt / 2.0
  {
    ProductPositive(d, dt);
    ExcessShrinks(k, b, d, dt, u, v, a);
    StoppingRoom(k, b, d, o, s, distance, v + a * dt);
  }

  // Where the braking curve is positive the limit lies below it, elsewhere it is not positive.
  lemma LimitBelowCurve(sqrt: real -> real, p: JointLimits, q: real)
    requires p.tolerance >= 0.0
    ensures var s, u := BrakingSpeed(sqrt, p.decelerationLimit, p.upperPosition - q), UpperVelocityLimit(sqrt, p, q);
            if s > p.velocityOffset then u <= s - p.velocityOffset else u <= 0.0
  {
    hide BrakingSpeed;
  }

  // The next velocity never exceeds k times the distance left to the stop, and
  // stays d*dt/2 below the braking speed wherever the limit is still positive.
  lemma NextVelocityLeavesRoom(sqrt: real -> real, p: JointLimits, k: real, b: real, q: real, v: real, a: real)
    requires IsSquareRoot(sqrt) && Braking(k, b, p) && ClearOfStop(sqrt, p, k, b, q, v)
    requires a <= k * (UpperVelocityLimit(sqrt, p, q) - v)
    ensures v + a * DELTA_T <= k * (p.upperPosition - q)
    ensures var s := BrakingSpeed(sqrt, p.decelerationLimit, p.upperPosition - q);
            s > p.velocityOffset ==> v + a * DELTA_T <= s - p.decelerationLimit * DELTA_T / 2.0
  {
    hide IsSquareRoot, BrakingSpeed, UpperVelocityLimit, Room;
    var d, u, o := p.decelerationLimit, UpperVelocityLimit(sqrt, p, q), p.velocityOffset;
    var distance := p.upperPosition - q;
    RoomIsLeft(k, DELTA_T, distance, v);
    BrakingSpeedSquared(sqrt, d, distance);
    LimitBelowCurve(sqrt, p, q);
    NextVelocity(k, b, d, o, BrakingSpeed(sqrt, d, distance), distance, u, v, a);
  }

  lemma RoomIsLeft(k: real, dt: real, gap: real, a: real)
    requires Room(k, dt, gap, a)
    ensures gap >= 0.0
  {
  }

  lemma NextVelocity(k: real, b: real, d: real, o: real, s: real, distance: real, u: real, v: real, a: real)
    requires 0.0 < k && k * DELTA_T <= 1.0 && 0.0 < d == k * b && 3.0 * b <= 2.0 * o
    requires s * s == 2.0 * d * distance && (if s > o then u <= s - o else u <= 0.0)
    requires v - u <= b && Room(k, DELTA_T, distance, v) && a <= k * (u - v)
    ensures v + a * DELTA_T <= k * distance && (s > o ==> v + a * DELTA_T <= s - d * DELTA_T / 2.0)
  {
    if s > o {
      PositiveFactor(k, b);
      RoomFarFromStop(k, b, d, o, DELTA_T, s, distance, u, v, a);
    } else {
      DecaysAtZeroLimit(k, DELTA_T, u, v, a);
    }
  }

  lemma PositiveFactor(k: real, b: real)
    requires k > 0.0 && k * b > 0.0
    ensures b > 0.0
  {
    CancelFactor(k, 0.0, b);
  }

  lemma LimitDrop(sqrt: real -> real, p: JointLimits, q: real, v: real)
    requires IsSquareRoot(sqrt) && p.decelerationLimit > 0.0
    requires q <= p.upperPosition && q + v * DELTA_T <= p.upperPosition
    requires var s := BrakingSpeed(sqrt, p.decelerationLimit, p.upperPosition - q);
             s > p.velocityOffset ==> v <= s - p.decelerationLimit * DELTA_T / 2.0
    ensures UpperVelocityLimit(sqrt, p, q + v * DELTA_T)
            >= UpperVelocityLimit(sqrt, p, q) - p.decelerationLimit * DELTA_T
  {
    var d, q' := p.decelerationLimit, q + v * DELTA_T;
    var s, s' := BrakingSpeed(sqrt, d, p.upperPosition - q), BrakingSpeed(sqrt, d, p.upperPosition - q');
    BrakingSpeedSquared(sqrt, d, p.upperPosition - q);
    BrakingSpeedSquared(sqrt, d, p.upperPosition - q');
    if s > p.velocityOffset {
      assert 2.0 * d * (p.upperPosition - q') == 2.0 * d * (p.upperPosition - q) - 2.0 * d * v * DELTA_T;
      BrakingSpeedDrop(d, DELTA_T, s, s', v);
    }
  }

  lemma RoomAndDrop(sqrt: real -> real, p: JointLimits, k: real, b: real, q: real, v: real, a: real)
    requires IsSquareRoot(sqrt) && Braking(k, b, p) && ClearOfStop(sqrt, p, k, b, q, v)
    requires a <= k * (UpperVelocityLimit(sqrt, p, q) - v)
    ensures var v' := v + a * DELTA_T; Room(k, DELTA_T, p.upperPosition - (q + v' * DELTA_T), v')
    ensures var v' := v + a * DELTA_T;
            UpperVelocityLimit(sqrt, p, q + v' * DELTA_T)
            >= UpperVelocityLimit(sqrt, p, q) - p.decelerationLimit * DELTA_T
  {
    var v' := v + a * DELTA_T;
    NextVelocityLeavesRoom(sqrt, p, k, b, q, v, a);
    assert Room(k, DELTA_T, p.upperPosition - (q + v' * DELTA_T), v') by {
      RoomKept(k, DELTA_T, p.upperPosition - q, v');
      assert p.upperPosition - q - v' * DELTA_T == p.upperPosition - (q + v' * DELTA_T);
    }
    LimitDrop(sqrt, p, q, v');
  }

  lemma StaysClearOfStop(sqrt: real -> real, p: JointLimits, k: real, b: real, q: real, v: real, a: real)
    requires IsSquareRoot(sqrt) && Braking(k, b, p) && ClearOfStop(sqrt, p, k, b, q, v)
    requires a <= k * (UpperVelocityLimit(sqrt, p, q) - v)
    ensures var v' := v + a * DELTA_T; ClearOfStop(sqrt, p, k, b, q + v' * DELTA_T, v')
  {
    var u, m := UpperVelocityLimit(sqrt, p, q), p.maxVelocity - p.tolerance;
    assert v + a * DELTA_T <= u + b - p.decelerationLimit * DELTA_T by {
      ExcessShrinks(k, b, p.decelerationLimit, DELTA_T, u, v, a);
    }
    assert v + a * DELTA_T <= m by { StaysBelow(k, DELTA_T, u, v, a, m); }
    RoomAndDrop(sqrt, p, k, b, q, v, a);
  }

  // ----- Both stops, acceleration and jerk -----

  // The lower stop is the upper stop seen with all signs flipped.
  function Mirrored(p: JointLimits): JointLimits {
    p.(upperPosition := -p.lowerPosition, lowerPosition := -p.upperPosition)
  }

  lemma LowerIsMirroredUpper(sqrt: real -> real, p: JointLimits, q: real)
    ensures LowerVelocityLimit(sqrt, p, q) == -UpperVelocityLimit(sqrt, Mirrored(p), -q)
  {
    assert -p.lowerPosition - (-q) == -p.lowerPosition + q;
  }

  // The moving limit recedes by at most d*dt a tick, so the acceleration can
  // be withdrawn with only k*d*dt beyond the jerk limit.
  ghost predicate Ease(k: real, d: real, gap: real, a: real) {
    a * (1.0 - k * DELTA_T) - d * (k * DELTA_T) <= k * gap
  }

  lemma EaseReachable(k: real, A: real, d: real, gap: real, a: real)
    requires k > 0.0 && A > 0.0 && d > 0.0 && a <= A && Ease(k, d, gap, a)
    ensures a - (k * A + k * d) * DELTA_T <= Min(k * gap, A)
  {
    ProductPositive(k, A);
    ProductPositive(k, d);
    ScaleOrder(k * DELTA_T, a, A);
    assert a * (1.0 - k * DELTA_T) == a - (k * DELTA_T) * a;
    assert (k * DELTA_T) * A == (k * A) * DELTA_T;
    assert d * (k * DELTA_T) == (k * d) * DELTA_T;
  }

  lemma EaseKept(k: real, d: real, gap: real, gap': real, a: real)
    requires k > 0.0 && a <= k * gap && gap' >= gap - d * DELTA_T - a * DELTA_T
    ensures Ease(k, d, gap', a)
  {
    ScaleOrder(k, gap - d * DELTA_T - a * DELTA_T, gap');
    assert k * (gap - d * DELTA_T - a * DELTA_T) == k * gap - d * (k * DELTA_T) - a * (k * DELTA_T);
    assert a * (1.0 - k * DELTA_T) == a - a * (k * DELTA_T);
  }

  // One side of the invariant of the position loop.
  ghost predicate Side(sqrt: real -> real, p: JointLimits, k: real, b: real, q: real, v: real, a: real) {
    && ClearOfStop(sqrt, p, k, b, q, v)
    && Ease(k, p.decelerationLimit, UpperVelocityLimit(sqrt, p, q) - v, a)
  }

  // q' and v' are the position and velocity one tick later.
  lemma SideKept(sqrt: real -> real, p: JointLimits, k: real, b: real, q: real, v: real, last: real, a: real, q': real,
                 v': real)
    requires IsSquareRoot(sqrt) && Braking(k, b, p) && Side(sqrt, p, k, b, q, v, last)
    requires a <= k * (UpperVelocityLimit(sqrt, p, q) - v)
    requires v' == v + a * DELTA_T && q' == q + v' * DELTA_T
    ensures Side(sqrt, p, k, b, q', v', a)
  {
    hide ClearOfStop, UpperVelocityLimit, Ease;
    StaysClearOfStop(sqrt, p, k, b, q, v, a);
    assert Ease(k, p.decelerationLimit, UpperVelocityLimit(sqrt, p, q') - v', a) by {
      RoomAndDrop(sqrt, p, k, b, q, v, a);
      EaseKept(k, p.decelerationLimit, UpperVelocityLimit(sqrt, p, q) - v, UpperVelocityLimit(sqrt, p, q') - v', a);
    }
  }

  ghost predicate JointInv(sqrt: real -> real, p: JointLimits, act: Actuator, k: real, b: real, s: JointState) {
    && -act.maxAcceleration <= s.acceleration <= act.maxAcceleration
    && Side(sqrt, p, k, b, s.position, s.velocity, s.acceleration)
    && Side(sqrt, Mirrored(p), k, b, -s.position, -s.velocity, -s.acceleration)
  }

  ghost predicate Ordered(sqrt: real -> real, p: JointLimits) {
    forall q :: p.lowerPosition <= q <= p.upperPosition ==>
      LowerVelocityLimit(sqrt, p, q) <= UpperVelocityLimit(sqrt, p, q)
  }

  ghost predicate Setting(sqrt: real -> real, p: JointLimits, act: Actuator, k: real, b: real) {
    && IsSquareRoot(sqrt)
    && Braking(k, b, p) && Ordered(sqrt, p)
    && 0.0 < act.maxAcceleration && k * act.maxAcceleration == act.maxJerk
    && p.decelerationLimit <= act.maxAcceleration
  }

  // The excess bound b keeps the braking band within the acceleration limit.
  lemma ExcessWithinAcceleration(k: real, b: real, A: real, d: real, u: real, v: real)
    requires k > 0.0 && d == k * b <= A && v - u <= b
    ensures -A <= k * (u - v)
  {
    ScaleOrder(k, -b, u - v);
  }

  lemma InsideStops(sqrt: real -> real, p: JointLimits, act: Actuator, k: real, b: real, s: JointState)
    requires Setting(sqrt, p, act, k, b) && JointInv(sqrt, p, act, k, b, s)
    ensures p.lowerPosition <= s.position <= p.upperPosition
    ensures LowerVelocityLimit(sqrt, p, s.position) <= UpperVelocityLimit(sqrt, p, s.position)
  {
    hide Ease, UpperVelocityLimit, LowerVelocityLimit;
  }

  lemma ClampMoves(a: real, w: real, hi: real, lo: real, e: real)
    requires lo <= hi && a - e <= hi && lo <= a + e && -e <= w <= e
    ensures lo <= Clamp(a + w, hi, lo) <= hi
    ensures Abs(Clamp(a + w, hi, lo) - a) <= e
  {
  }

  lemma BandOrdered(k: real, A: real, lim: Limits, v: real)
    requires k > 0.0 && A == lim.maxAcceleration > 0.0 && lim.lower <= lim.upper
    requires -A <= k * (lim.upper - v) && -A <= k * (-lim.lower - (-v))
    ensures SafeMinAcceleration(k, lim, v) <= SafeMaxAcceleration(k, lim, v)
  {
    ScaleOrder(k, lim.lower - v, lim.upper - v);
    assert k * (-lim.lower - (-v)) == -(k * (lim.lower - v));
  }

  // Neither limit is exceeded by more than b.
  lemma ExcessBounds(sqrt: real -> real, p: JointLimits, act: Actuator, k: real, b: real, s: JointState)
    requires JointInv(sqrt, p, act, k, b, s)
    ensures s.velocity - UpperVelocityLimit(sqrt, p, s.position) <= b
    ensures LowerVelocityLimit(sqrt, p, s.position) - s.velocity <= b
  {
    hide Ease, Room, UpperVelocityLimit, LowerVelocityLimit;
    LowerIsMirroredUpper(sqrt, p, s.position);
  }

  // Both velocity limits leave a braking band within the acceleration limit.
  lemma MovingBand(sqrt: real -> real, p: JointLimits, act: Actuator, k: real, b: real, s: JointState)
    requires Setting(sqrt, p, act, k, b) && JointInv(sqrt, p, act, k, b, s)
    ensures var lim := LimitsAt(sqrt, p, act, s.position);
            SafeMinAcceleration(k, lim, s.velocity) <= SafeMaxAcceleration(k, lim, s.velocity)
  {
    hide JointInv, Ordered, UpperVelocityLimit, LowerVelocityLimit, SafeMaxAcceleration, SafeMinAcceleration;
    InsideStops(sqrt, p, act, k, b, s);
    ExcessBounds(sqrt, p, act, k, b, s);
    var A, d, lim, v := act.maxAcceleration, p.decelerationLimit, LimitsAt(sqrt, p, act, s.position), s.velocity;
    ExcessWithinAcceleration(k, b, A, d, lim.upper, v);
    ExcessWithinAcceleration(k, b, A, d, -lim.lower, -v);
    BandOrdered(k, A, lim, v);
  }

  // The moving band can be reached with slightly more than the jerk limit.
  lemma MovingBandReachable(sqrt: real -> real, p: JointLimits, act: Actuator, k: real, b: real, s: JointState)
    requires Setting(sqrt, p, act, k, b) && JointInv(sqrt, p, act, k, b, s)
    ensures var lim, e := LimitsAt(sqrt, p, act, s.position), (act.maxJerk + k * p.decelerationLimit) * DELTA_T;
            && s.acceleration - e <= SafeMaxAcceleration(k, lim, s.velocity)
            && SafeMinAcceleration(k, lim, s.velocity) <= s.acceleration + e
  {
    hide Ease, ClearOfStop, UpperVelocityLimit, LowerVelocityLimit, SafeMaxAcceleration, SafeMinAcceleration,
         IsSquareRoot, Ordered;
    var d, v, a, lim := p.decelerationLimit, s.velocity, s.acceleration, LimitsAt(sqrt, p, act, s.position);
    var e := (act.maxJerk + k * d) * DELTA_T;
    UpperSlack(k, lim, v, a, act.maxJerk, d, e);
    LowerIsMirroredUpper(sqrt, p, s.position);
    UpperSlack(k, RateLimiter.Mirrored(lim), -v, -a, act.maxJerk, d, e);
    RateLimiter.SafeMinIsMirrored(k, lim, v);
  }

  lemma UpperSlack(k: real, lim: Limits, v: real, a: real, j: real, d: real, e: real)
    requires k > 0.0 && lim.maxAcceleration > 0.0 && d > 0.0 && k * lim.maxAcceleration == j
             && e == (j + k * d) * DELTA_T
    requires a <= lim.maxAcceleration && Ease(k, d, lim.upper - v, a)
    ensures a - e <= SafeMaxAcceleration(k, lim, v)
  {
    EaseReachable(k, lim.maxAcceleration, d, lim.upper - v, a);
  }

  lemma JerkSlack(k: real, j: real, a: real, d: real, jerk: real)
    requires k > 0.0 && a > 0.0 && d > 0.0 && j == k * a
    ensures var e := (j + k * d) * DELTA_T; -e <= Clamp(jerk, j, -j) * DELTA_T <= e
  {
    ProductPositive(k, a);
    ProductPositive(k, d);
  }

  lemma AppliedIsInBand(sqrt: real -> real, p: JointLimits, act: Actuator, k: real, b: real, s: JointState, jerk: real)
    requires Setting(sqrt, p, act, k, b) && JointInv(sqrt, p, act, k, b, s)
    ensures var lim := LimitsAt(sqrt, p, act, s.position);
            var a := ClampedAcceleration(k, lim, jerk, Motion(s.velocity, s.acceleration));
            && SafeMinAcceleration(k, lim, s.velocity) <= a <= SafeMaxAcceleration(k, lim, s.velocity)
            && Abs(a - s.acceleration) <= (act.maxJerk + k * p.decelerationLimit) * DELTA_T
  {
    hide JointInv, Ordered, UpperVelocityLimit, LowerVelocityLimit, SafeMaxAcceleration, SafeMinAcceleration, Clamp,
         Abs;
    var lim := LimitsAt(sqrt, p, act, s.position);
    MovingBand(sqrt, p, act, k, b, s);
    MovingBandReachable(sqrt, p, act, k, b, s);
    JerkSlack(k, act.maxJerk, act.maxAcceleration, p.decelerationLimit, jerk);
    ClampMoves(s.acceleration, Clamp(jerk, act.maxJerk, -act.maxJerk) * DELTA_T,
               SafeMaxAcceleration(k, lim, s.velocity), SafeMinAcceleration(k, lim, s.velocity),
               (act.maxJerk + k * p.decelerationLimit) * DELTA_T);
  }

  lemma BrakingMirrored(k: real, b: real, p: JointLimits)
    requires Braking(k, b, p)
    ensures Braking(k, b, Mirrored(p))
  {
  }

  lemma JointInvKept(sqrt: real -> real, p: JointLimits, act: Actuator, k: real, b: real, s: JointState, a: real)
    requires Setting(sqrt, p, act, k, b) && JointInv(sqrt, p, act, k, b, s)
    requires var lim := LimitsAt(sqrt, p, act, s.position);
             SafeMinAcceleration(k, lim, s.velocity) <= a <= SafeMaxAcceleration(k, lim, s.velocity)
    ensures JointInv(sqrt, p, act, k, b, Advance(s, a))
  {
    hide Side, UpperVelocityLimit, LowerVelocityLimit, Braking, Ordered, SafeMaxAcceleration, SafeMinAcceleration,
         IsSquareRoot;
    var q, v, m := s.position, s.velocity, Mirrored(p);
    BandFacts(k, LimitsAt(sqrt, p, act, q), v, a);
    var v' := v + a * DELTA_T;
    var q' := q + v' * DELTA_T;
    assert Side(sqrt, p, k, b, q', v', a) by {
      SideKept(sqrt, p, k, b, q, v, s.acceleration, a, q', v');
    }
    assert Side(sqrt, m, k, b, -q', -v', -a) by {
      LowerIsMirroredUpper(sqrt, p, q);
      BrakingMirrored(k, b, p);
      OppositeGap(k, UpperVelocityLimit(sqrt, m, -q), LowerVelocityLimit(sqrt, p, q), v, a);
      SideKept(sqrt, m, k, b, -q, -v, -s.acceleration, -a, -q', -v');
    }
  }

  lemma OppositeGap(k: real, upper: real, lower: real, v: real, a: real)
    requires lower == -upper && k * (lower - v) <= a
    ensures -a <= k * (upper - (-v))
  {
    assert k * (upper - (-v)) + k * (lower - v) == k * (upper + lower);
  }

  lemma BandFacts(k: real, lim: Limits, v: real, a: real)
    requires SafeMinAcceleration(k, lim, v) <= a <= SafeMaxAcceleration(k, lim, v)
    ensures a <= k * (lim.upper - v) && k * (lim.lower - v) <= a && -lim.maxAcceleration <= a <= lim.maxAcceleration
  {
  }

  // ----- Whole runs -----

  // What has to hold of the constants: none of it mentions a run.
  ghost predicate Stoppable(p: JointLimits, act: Actuator) {
    && 0.0 < act.maxAcceleration && 0.0 < act.maxJerk
    && act.maxJerk * DELTA_T <= act.maxAcceleration
    && 0.0 < p.decelerationLimit <= act.maxAcceleration
    && 0.0 <= p.tolerance && 2.0 * p.tolerance <= p.maxVelocity
    && p.tolerance <= p.decelerationLimit * DELTA_T
    && 3.0 * (p.decelerationLimit * act.maxAcceleration) <= 2.0 * p.velocityOffset * act.maxJerk
    && (p.velocityOffset + 2.0 * p.tolerance) * (p.velocityOffset + 2.0 * p.tolerance)
       <= p.decelerationLimit * (p.upperPosition - p.lowerPosition)
  }

  // The most the velocity can exceed its moving limit.
  function MaxExcess(p: JointLimits, act: Actuator): real
    requires act.maxJerk != 0.0
  {
    p.decelerationLimit * act.maxAcceleration / act.maxJerk
  }

  lemma ExcessArithmetic(d: real, A: real, J: real, dt: real, t: real, o: real)
    requires d > 0.0 && A > 0.0 && J > 0.0 && dt > 0.0 && J * dt <= A
    requires t <= d * dt && 3.0 * (d * A) <= 2.0 * o * J
    ensures (J / A) * (d * A / J) == d && t <= d * A / J && 3.0 * (d * A / J) <= 2.0 * o
  {
    var k, b := J / A, d * A / J;
    assert k * A == J && b * J == d * A;
    assert A * (k * b) == b * J;
    assert A * d == d * A;
    CancelFactor(A, k * b, d);
    CancelFactor(A, d, k * b);
    assert J * (d * dt) <= J * b by {
      ScaleOrder(d, J * dt, A);
      assert J * (d * dt) == d * (J * dt);
    }
    CancelFactor(J, d * dt, b);
    CancelFactor(J, 3.0 * b, 2.0 * o);
  }

  // Wherever the joint stands, it is far enough from one of the stops.
  lemma OneSideOpen(d: real, w: real, x: real, y: real, sx: real, sy: real)
    requires sx >= 0.0 && sy >= 0.0 && sx * sx == 2.0 * d * x && sy * sy == 2.0 * d * y
    requires w * w <= d * (x + y)
    ensures w <= sx || w <= sy
  {
    assert sx * sx + sy * sy == 2.0 * (d * (x + y));
    if w * w <= sx * sx { SquareOrder(w, sx); } else { SquareOrder(w, sy); }
  }

  lemma OrderedAt(sqrt: real -> real, p: JointLimits, act: Actuator, q: real)
    requires IsSquareRoot(sqrt) && Stoppable(p, act) && p.lowerPosition <= q <= p.upperPosition
    ensures LowerVelocityLimit(sqrt, p, q) <= UpperVelocityLimit(sqrt, p, q)
  {
    var d, w, x, y := p.decelerationLimit, p.velocityOffset + 2.0 * p.tolerance, p.upperPosition - q,
        -p.lowerPosition + q;
    assert w <= BrakingSpeed(sqrt, d, x) || w <= BrakingSpeed(sqrt, d, y) by {
      BrakingSpeedSquared(sqrt, d, x);
      BrakingSpeedSquared(sqrt, d, y);
      hide BrakingSpeed, IsSquareRoot;
      assert d * (x + y) == d * (p.upperPosition - p.lowerPosition);
      OneSideOpen(d, w, x, y, BrakingSpeed(sqrt, d, x), BrakingSpeed(sqrt, d, y));
    }
    assert 0.0 <= 2.0 * p.tolerance <= p.maxVelocity;
    hide BrakingSpeed, IsSquareRoot, Stoppable;
  }

  lemma SettingHolds(sqrt: real -> real, p: JointLimits, act: Actuator)
    requires IsSquareRoot(sqrt) && Stoppable(p, act)
    ensures Setting(sqrt, p, act, act.maxJerk / act.maxAcceleration, MaxExcess(p, act))
  {
    hide IsSquareRoot, UpperVelocityLimit, LowerVelocityLimit, Stoppable, Braking, MaxExcess;
    forall q | p.lowerPosition <= q <= p.upperPosition
      ensures LowerVelocityLimit(sqrt, p, q) <= UpperVelocityLimit(sqrt, p, q)
    {
      OrderedAt(sqrt, p, act, q);
    }
    BrakingHolds(p, act);
  }

  lemma BrakingHolds(p: JointLimits, act: Actuator)
    requires Stoppable(p, act)
    ensures act.maxAcceleration > 0.0 && act.maxJerk > 0.0 && p.decelerationLimit <= act.maxAcceleration
    ensures var k := act.maxJerk / act.maxAcceleration;
            Braking(k, MaxExcess(p, act), p) && k * act.maxAcceleration == act.maxJerk
  {
    hide Stoppable, Braking, MaxExcess;
    ExcessFacts(p, act);
    BrakingFrom(act.maxJerk / act.maxAcceleration, MaxExcess(p, act), p);
  }

  lemma ExcessFacts(p: JointLimits, act: Actuator)
    requires Stoppable(p, act)
    ensures act.maxAcceleration > 0.0 && act.maxJerk > 0.0 && 0.0 < p.decelerationLimit <= act.maxAcceleration
    ensures 0.0 <= p.tolerance <= p.maxVelocity
    ensures var k, b := act.maxJerk / act.maxAcceleration, MaxExcess(p, act);
            && 0.0 < k && k * DELTA_T <= 1.0 && k * act.maxAcceleration == act.maxJerk
            && p.decelerationLimit == k * b && p.tolerance <= b && 3.0 * b <= 2.0 * p.velocityOffset
  {
    hide Stoppable;
    StoppableFacts(p, act);
    var A, j, d, t, o := act.maxAcceleration, act.maxJerk, p.decelerationLimit, p.tolerance, p.velocityOffset;
    var k, b := j / A, d * A / j;
    assert 0.0 < k && k * A == j && k * DELTA_T <= 1.0 by { GainArithmetic(j, A, DELTA_T); }
    assert k * b == d && t <= b && 3.0 * b <= 2.0 * o by { ExcessArithmetic(d, A, j, DELTA_T, t, o); }
  }

  lemma StoppableFacts(p: JointLimits, act: Actuator)
    requires Stoppable(p, act)
    ensures 0.0 < act.maxAcceleration && 0.0 < act.maxJerk && act.maxJerk * DELTA_T <= act.maxAcceleration
    ensures 0.0 < p.decelerationLimit <= act.maxAcceleration && 0.0 <= p.tolerance <= p.maxVelocity
    ensures p.tolerance <= p.decelerationLimit * DELTA_T
    ensures 3.0 * (p.decelerationLimit * act.maxAcceleration) <= 2.0 * p.velocityOffset * act.maxJerk
  {
  }

  lemma BrakingFrom(k: real, b: real, p: JointLimits)
    requires 0.0 < k && k * DELTA_T <= 1.0 && 0.0 < p.decelerationLimit == k * b
    requires 0.0 <= p.tolerance <= b && p.tolerance <= p.maxVelocity && 3.0 * b <= 2.0 * p.velocityOffset
    ensures Braking(k, b, p)
  {
  }

  lemma RestIsClear(sqrt: real -> real, p: JointLimits, k: real, b: real, q: real)
    requires Braking(k, b, p) && p.tolerance <= p.decelerationLimit * DELTA_T && q <= p.upperPosition
    ensures Side(sqrt, p, k, b, q, 0.0, 0.0)
  {
    var u := UpperVelocityLimit(sqrt, p, q);
    assert u >= -p.tolerance;
    hide UpperVelocityLimit;
    RestHasRoom(k, p.upperPosition - q);
    RestIsEasy(k, p.decelerationLimit, u, p.tolerance);
    hide Room, Ease;
  }

  lemma RestHasRoom(k: real, gap: real)
    requires k > 0.0 && gap >= 0.0
    ensures Room(k, DELTA_T, gap, 0.0)
  {
    ProductNonNegative(k, gap);
  }

  lemma RestIsEasy(k: real, d: real, u: real, tolerance: real)
    requires k > 0.0 && u >= -tolerance && tolerance <= d * DELTA_T
    ensures Ease(k, d, u - 0.0, 0.0)
  {
    ScaleOrder(k, -(d * DELTA_T), u);
    assert k * -(d * DELTA_T) == -(d * (k * DELTA_T));
  }

  lemma RestIsSafe(sqrt: real -> real, p: JointLimits, act: Actuator, k: real, b: real, q: real)
    requires Setting(sqrt, p, act, k, b) && p.tolerance <= p.decelerationLimit * DELTA_T
    requires p.lowerPosition <= q <= p.upperPosition
    ensures JointInv(sqrt, p, act, k, b, JointState(q, 0.0, 0.0))
  {
    hide Side, Ordered, IsSquareRoot, Braking;
    BrakingMirrored(k, b, p);
    RestIsClear(sqrt, p, k, b, q);
    RestIsClear(sqrt, Mirrored(p), k, b, -q);
  }

  lemma {:induction false} RunKeepsInv(sqrt: real -> real, p: JointLimits, act: Actuator, k: real, b: real,
                                       start: JointState, commands: seq<real>)
    requires Setting(sqrt, p, act, k, b) && JointInv(sqrt, p, act, k, b, start)
    requires k == act.maxJerk / act.maxAcceleration
    ensures JointInv(sqrt, p, act, k, b, JointRun(sqrt, p, act, start, commands))
  {
    hide JointInv, Ordered, IsSquareRoot, Braking, UpperVelocityLimit, LowerVelocityLimit, SafeMaxAcceleration,
         SafeMinAcceleration, ClampedAcceleration, CommandedJerk;
    if commands != [] {
      var s, c := JointRun(sqrt, p, act, start, commands[..|commands| - 1]), commands[|commands| - 1];
      RunKeepsInv(sqrt, p, act, k, b, start, commands[..|commands| - 1]);
      TickIsSafe(sqrt, p, act, k, b, s, c);
    }
  }

  lemma TickIsSafe(sqrt: real -> real, p: JointLimits, act: Actuator, k: real, b: real, s: JointState, command: real)
    requires Setting(sqrt, p, act, k, b) && JointInv(sqrt, p, act, k, b, s)
    requires k == act.maxJerk / act.maxAcceleration
    ensures JointInv(sqrt, p, act, k, b, JointTick(sqrt, p, act, s, command))
    ensures Abs(JointTick(sqrt, p, act, s, command).acceleration - s.acceleration)
            <= (act.maxJerk + k * p.decelerationLimit) * DELTA_T
  {
    hide JointInv, Ordered, IsSquareRoot, Braking, UpperVelocityLimit, LowerVelocityLimit, SafeMaxAcceleration,
         SafeMinAcceleration, ClampedAcceleration, CommandedJerk, JointTick, Abs;
    var m := Motion(s.velocity, s.acceleration);
    var jerk := CommandedJerk((command - s.position) / DELTA_T, m);
    AppliedIsInBand(sqrt, p, act, k, b, s, jerk);
    JointInvKept(sqrt, p, act, k, b, s, ClampedAcceleration(k, LimitsAt(sqrt, p, act, s.position), jerk, m));
    TickAdvances(sqrt, p, act, s, command);
  }

  // The joint stays between its stops, at a bounded speed and acceleration.
  ghost predicate WithinStops(p: JointLimits, act: Actuator, s: JointState) {
    && p.lowerPosition <= s.position <= p.upperPosition
    && -(p.maxVelocity - p.tolerance) <= s.velocity <= p.maxVelocity - p.tolerance
    && -act.maxAcceleration <= s.acceleration <= act.maxAcceleration
  }

  // How closely the velocity follows the moving limits.
  ghost predicate TracksLimits(sqrt: real -> real, p: JointLimits, s: JointState, excess: real) {
    LowerVelocityLimit(sqrt, p, s.position) - excess <= s.velocity <= UpperVelocityLimit(sqrt, p, s.position) + excess
  }

  lemma InvIsSafe(sqrt: real -> real, p: JointLimits, act: Actuator, k: real, b: real, s: JointState)
    requires JointInv(sqrt, p, act, k, b, s)
    ensures WithinStops(p, act, s) && TracksLimits(sqrt, p, s, b)
  {
    ExcessBounds(sqrt, p, act, k, b, s);
    hide Ease, UpperVelocityLimit, LowerVelocityLimit;
  }

  lemma StoppableSigns(p: JointLimits, act: Actuator)
    requires Stoppable(p, act)
    ensures act.maxAcceleration > 0.0 && act.maxJerk > 0.0 && p.tolerance <= p.decelerationLimit * DELTA_T
  {
  }

  // The jerk limit holds for every command exactly if neither limit has moved
  // out of reach, and if one has, it is broken by every command.
  ghost predicate BandInReach(lim: Limits, k: real, s: JointState) {
    && s.acceleration - lim.maxJerk * DELTA_T <= SafeMaxAcceleration(k, lim, s.velocity)
    && SafeMinAcceleration(k, lim, s.velocity) <= s.acceleration + lim.maxJerk * DELTA_T
  }

  lemma JerkKeptFrom(sqrt: real -> real, p: JointLimits, act: Actuator, k: real, b: real, s: JointState, command: real)
    requires Setting(sqrt, p, act, k, b) && JointInv(sqrt, p, act, k, b, s)
    requires k == act.maxJerk / act.maxAcceleration
    ensures Abs(JointTick(sqrt, p, act, s, command).acceleration - s.acceleration) <= act.maxJerk * DELTA_T
            <==> BandInReach(LimitsAt(sqrt, p, act, s.position), k, s)
  {
    hide JointInv, Ordered, IsSquareRoot, UpperVelocityLimit, LowerVelocityLimit, SafeMaxAcceleration,
         SafeMinAcceleration, CommandedJerk, JointTick, Abs, Clamp;
    var lim, m := LimitsAt(sqrt, p, act, s.position), Motion(s.velocity, s.acceleration);
    var jerk := CommandedJerk((command - s.position) / DELTA_T, m);
    TickAdvances(sqrt, p, act, s, command);
    MovingBand(sqrt, p, act, k, b, s);
    PositiveJerk(k, act.maxAcceleration, act.maxJerk);
    ClampJerk(jerk, act.maxJerk);
    ClampReaches(s.acceleration, Clamp(jerk, act.maxJerk, -act.maxJerk) * DELTA_T,
                 SafeMaxAcceleration(k, lim, s.velocity), SafeMinAcceleration(k, lim, s.velocity),
                 act.maxJerk * DELTA_T);
  }

  lemma PositiveJerk(k: real, a: real, j: real)
    requires k > 0.0 && a > 0.0 && k * a == j
    ensures j > 0.0
  {
  }

  lemma ClampJerk(jerk: real, j: real)
    requires j > 0.0
    ensures -(j * DELTA_T) <= Clamp(jerk, j, -j) * DELTA_T <= j * DELTA_T
  {
  }

  lemma ClampReaches(a: real, w: real, hi: real, lo: real, e: real)
    requires lo <= hi && -e <= w <= e
    ensures Abs(Clamp(a + w, hi, lo) - a) <= e <==> a - e <= hi && lo <= a + e
  {
  }

  // No run of the limited position loop, under any callback, leaves the range
  // between the stops; the jerk limit is exceeded by at most the factor 1 + d/A.
  lemma NeverCrossesStops(sqrt: real -> real, p: JointLimits, act: Actuator, q0: real, commands: seq<real>, next: real)
    requires IsSquareRoot(sqrt) && Stoppable(p, act) && p.lowerPosition <= q0 <= p.upperPosition
    ensures var s := JointRun(sqrt, p, act, JointState(q0, 0.0, 0.0), commands);
            && WithinStops(p, act, s)
            && TracksLimits(sqrt, p, s, MaxExcess(p, act))
            && Abs(JointTick(sqrt, p, act, s, next).acceleration - s.acceleration)
               <= (act.maxJerk + act.maxJerk / act.maxAcceleration * p.decelerationLimit) * DELTA_T
  {
    hide IsSquareRoot, Stoppable, Setting, WithinStops, TracksLimits, JointInv, MaxExcess, JointRun, JointTick, Abs;
    StoppableSigns(p, act);
    var k, b := act.maxJerk / act.maxAcceleration, MaxExcess(p, act);
    var s := JointRun(sqrt, p, act, JointState(q0, 0.0, 0.0), commands);
    SettingHolds(sqrt, p, act);
    RestIsSafe(sqrt, p, act, k, b, q0);
    RunKeepsInv(sqrt, p, act, k, b, JointState(q0, 0.0, 0.0), commands);
    InvIsSafe(sqrt, p, act, k, b, s);
    TickIsSafe(sqrt, p, act, k, b, s, next);
  }

  lemma JerkKeptExactly(sqrt: real -> real, p: JointLimits, act: Actuator, q0: real, commands: seq<real>, next: real)
    requires IsSquareRoot(sqrt) && Stoppable(p, act) && p.lowerPosition <= q0 <= p.upperPosition
    ensures var s := JointRun(sqrt, p, act, JointState(q0, 0.0, 0.0), commands);
            Abs(JointTick(sqrt, p, act, s, next).acceleration - s.acceleration) <= act.maxJerk * DELTA_T
            <==> BandInReach(LimitsAt(sqrt, p, act, s.position), act.maxJerk / act.maxAcceleration, s)
  {
    hide IsSquareRoot, Stoppable, Setting, JointInv, MaxExcess, JointRun, JointTick, Abs, BandInReach;
    StoppableSigns(p, act);
    var k, b := act.maxJerk / act.maxAcceleration, MaxExcess(p, act);
    var start := JointState(q0, 0.0, 0.0);
    SettingHolds(sqrt, p, act);
    RestIsSafe(sqrt, p, act, k, b, q0);
    RunKeepsInv(sqrt, p, act, k, b, start, commands);
    JerkKeptFrom(sqrt, p, act, k, b, JointRun(sqrt, p, act, start, commands), next);
  }
}
