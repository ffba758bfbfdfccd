/**
  Whole sessions of the control loop in libfranka/src/control_loop.cpp for one
  joint or the elbow, with a robot that echoes the commands it gets.
 */
module JointSessions {
  import opened Reals
  import opened RateLimiter
  import opened JointStops
  import opened ControlLoop

  // ----- Joint positions -----

  // The first output is its own reference, every later one refers to the robot.
  function PositionSession(sqrt: real -> real, cfg: Settings, i: nat, start: JointState, outs: seq<real>): JointState
    requires cfg.Valid() && i < 7
  {
    if outs == [] then start
    else
      var n := |outs| - 1;
      var s := PositionSession(sqrt, cfg, i, start, outs[..n]);
      Echo(s, PositionCommand(sqrt, cfg, i, if n == 0 then s.(position := outs[0]) else s, outs[n]))
  }

  function Column(outs: seq<seq<real>>, i: nat): (column: seq<real>)
    requires i < 7 && forall out <- outs :: |out| == 7
    ensures |column| == |outs|
  {
    seq(|outs|, n requires 0 <= n < |outs| => outs[n][i])
  }

  lemma ColumnGrows(outs: seq<seq<real>>, n: nat, i: nat)
    requires n < |outs| && i < 7 && forall out <- outs :: |out| == 7
    ensures var column := Column(outs[..n + 1], i);
            |column| == n + 1 && column[..n] == Column(outs[..n], i) && column[n] == outs[n][i]
            && column[0] == outs[0][i]
  {
  }

  // One tick of the loop object with the robot echoing what it was sent.
  method EchoOnce(jointLoop: JointLoop, sqrt: real -> real, joints: seq<JointState>, out: seq<real>)
    returns (moved: seq<JointState>)
    requires jointLoop.cfg.Valid() && |joints| == 7 == |out|
    modifies jointLoop`initializedFilter
    ensures jointLoop.initializedFilter
    ensures |moved| == 7
    ensures forall i :: 0 <= i < 7 ==>
              moved[i] == Echo(joints[i], PositionCommand(sqrt, jointLoop.cfg, i,
                  if old(jointLoop.initializedFilter) then joints[i] else joints[i].(position := out[i]), out[i]))
  {
    hide PositionCommand, Echo;
    var state := Desired(seq(7, i requires 0 <= i < 7 => joints[i].position),
                         seq(7, i requires 0 <= i < 7 => joints[i].velocity),
                         seq(7, i requires 0 <= i < 7 => joints[i].acceleration));
    var sent := jointLoop.ConvertPositions(sqrt, out, state);
    var positions := sent[..];
    moved := seq(7, i requires 0 <= i < 7 => Echo(joints[i], positions[i]));
    forall i | 0 <= i < 7 ensures state.Joint(i, joints[i].position) == joints[i] {}
  }

  // The loop object computes exactly this session for each of its joints.
  method EchoPositions(jointLoop: JointLoop, sqrt: real -> real, start: seq<JointState>, outs: seq<seq<real>>)
    returns (joints: seq<JointState>)
    requires jointLoop.cfg.Valid() && !jointLoop.initializedFilter && |start| == 7
    requires forall out <- outs :: |out| == 7
    modifies jointLoop`initializedFilter
    ensures jointLoop.initializedFilter <==> outs != []
    ensures |joints| == 7
    ensures forall i :: 0 <= i < 7 ==>
              joints[i] == PositionSession(sqrt, jointLoop.cfg, i, start[i], Column(outs, i))
  {
    hide PositionCommand, Echo, Column;
    joints := start;
    for n := 0 to |outs|
      invariant jointLoop.initializedFilter <==> n > 0
      invariant |joints| == 7
      invariant forall i :: 0 <= i < 7 ==>
                  joints[i] == PositionSession(sqrt, jointLoop.cfg, i, start[i], Column(outs[..n], i))
    {
      var moved := EchoOnce(jointLoop, sqrt, joints, outs[n]);
      forall i | 0 <= i < 7
        ensures moved[i] == PositionSession(sqrt, jointLoop.cfg, i, start[i], Column(outs[..n + 1], i))
      {
        ColumnGrows(outs, n, i);
      }
      joints := moved;
    }
    assert outs[..|outs|] == outs;
  }

  lemma FilterKeepsReference(gain: real, q: real)
    ensures Filtered(gain, q, q) == q
  {
    assert gain * q + (1.0 - gain) * q == q;
  }

  // From the second output on the session is a run of the limiter.
  lemma {:induction false} SessionIsRun(sqrt: real -> real, cfg: Settings, i: nat, start: JointState,
                                        first: real, outs: seq<real>)
    returns (commands: seq<real>)
    requires cfg.Valid() && i < 7 && cfg.limitRate
    ensures PositionSession(sqrt, cfg, i, start, [first] + outs)
            == JointRun(sqrt, cfg.limits[i], cfg.actuator, PositionSession(sqrt, cfg, i, start, [first]), commands)
  {
    hide Filtered, LimitedPosition, Echo;
    if outs == [] {
      commands := [];
      assert [first] + outs == [first];
    } else {
      var n := |outs| - 1;
      var before := SessionIsRun(sqrt, cfg, i, start, first, outs[..n]);
      assert ([first] + outs)[..n + 1] == [first] + outs[..n];
      var s := PositionSession(sqrt, cfg, i, start, [first] + outs[..n]);
      commands := before + [Filtered(cfg.gain, outs[n], s.position)];
      assert commands[..|commands| - 1] == before;
    }
  }

  // The other way round, any run of the limiter can be commanded through the filter.
  lemma {:induction false} RunIsSession(sqrt: real -> real, cfg: Settings, i: nat, start: JointState,
                                        first: real, commands: seq<real>)
    returns (outs: seq<real>)
    requires cfg.Valid() && i < 7 && cfg.limitRate && cfg.gain > 0.0
    ensures PositionSession(sqrt, cfg, i, start, [first] + outs)
            == JointRun(sqrt, cfg.limits[i], cfg.actuator, PositionSession(sqrt, cfg, i, start, [first]), commands)
  {
    hide Filtered, LimitedPosition, Echo;
    if commands == [] {
      outs := [];
      assert [first] + outs == [first];
    } else {
      var n := |commands| - 1;
      var before := RunIsSession(sqrt, cfg, i, start, first, commands[..n]);
      var s := PositionSession(sqrt, cfg, i, start, [first] + before);
      var out := FilterReaches(cfg.gain, commands[n], s.position);
      outs := before + [out];
      assert ([first] + outs)[..|outs|] == [first] + before;
    }
  }

  lemma FilterReaches(gain: real, wanted: real, last: real) returns (out: real)
    requires gain > 0.0
    ensures Filtered(gain, out, last) == wanted
  {
    out := (wanted - (1.0 - gain) * last) / gain;
    assert gain * out == wanted - (1.0 - gain) * last;
  }

  // ----- The first position sent -----

  // Conditions on the constants which all joints of the robot satisfy.
  ghost predicate RoomBetweenStops(p: JointLimits, act: Actuator) {
    && 0.0 < act.maxAcceleration && 0.0 < act.maxJerk && act.maxJerk * DELTA_T <= act.maxAcceleration
    && 0.0 < p.decelerationLimit && 0.0 <= p.velocityOffset
    && 0.0 <= p.tolerance && 2.0 * p.tolerance <= p.maxVelocity
    && act.maxJerk * p.tolerance <= act.maxAcceleration * act.maxAcceleration
    && var w := p.velocityOffset + 2.0 * p.tolerance;
       2.0 * p.decelerationLimit * (p.tolerance * DELTA_T) <= w * w
       <= p.decelerationLimit * (p.upperPosition - p.lowerPosition)
  }

  lemma StoppableHasRoom(p: JointLimits, act: Actuator)
    requires Stoppable(p, act)
    ensures RoomBetweenStops(p, act)
  {
    hide Stoppable, RoomBetweenStops;
    StoppableSigns(p, act);
    StoppableOffset(p, act);
    StoppableWidth(p, act);
    StoppableRange(p, act);
    RoomFrom(p, act);
  }

  lemma StoppableOffset(p: JointLimits, act: Actuator)
    requires Stoppable(p, act)
    ensures act.maxJerk * DELTA_T <= act.maxAcceleration && 0.0 < p.decelerationLimit && 0.0 <= p.tolerance
    ensures 3.0 * (p.decelerationLimit * DELTA_T) <= 2.0 * p.velocityOffset
    ensures act.maxJerk * p.tolerance <= act.maxAcceleration * act.maxAcceleration
  {
    hide Stoppable;
    StoppableFacts(p, act);
    OffsetBound(act.maxAcceleration, act.maxJerk, p.decelerationLimit, p.velocityOffset);
    TolerableGain(act.maxAcceleration, act.maxJerk, p.decelerationLimit, p.tolerance);
  }

  lemma StoppableWidth(p: JointLimits, act: Actuator)
    requires Stoppable(p, act)
    ensures var w := p.velocityOffset + 2.0 * p.tolerance;
            2.0 * p.decelerationLimit * (p.tolerance * DELTA_T) <= w * w
  {
    hide Stoppable;
    StoppableOffset(p, act);
    StoppableSigns(p, act);
    WidthBound(p.decelerationLimit, p.tolerance, p.velocityOffset);
  }

  lemma StoppableRange(p: JointLimits, act: Actuator)
    requires Stoppable(p, act)
    ensures 2.0 * p.tolerance <= p.maxVelocity
    ensures var w := p.velocityOffset + 2.0 * p.tolerance;
            w * w <= p.decelerationLimit * (p.upperPosition - p.lowerPosition)
  {
  }

  lemma RoomFrom(p: JointLimits, act: Actuator)
    requires 0.0 < act.maxAcceleration && 0.0 < act.maxJerk && act.maxJerk * DELTA_T <= act.maxAcceleration
    requires 0.0 < p.decelerationLimit && 3.0 * (p.decelerationLimit * DELTA_T) <= 2.0 * p.velocityOffset
    requires 0.0 <= p.tolerance && 2.0 * p.tolerance <= p.maxVelocity
    requires act.maxJerk * p.tolerance <= act.maxAcceleration * act.maxAcceleration
    requires var w := p.velocityOffset + 2.0 * p.tolerance;
             2.0 * p.decelerationLimit * (p.tolerance * DELTA_T) <= w * w
             <= p.decelerationLimit * (p.upperPosition - p.lowerPosition)
    ensures RoomBetweenStops(p, act)
  {
  }

  lemma OffsetBound(A: real, j: real, d: real, o: real)
    requires 0.0 < A && 0.0 < j && j * DELTA_T <= A && 0.0 < d && 3.0 * (d * A) <= 2.0 * o * j
    ensures 3.0 * (d * DELTA_T) <= 2.0 * o
  {
    ScaleOrder(d, j * DELTA_T, A);
    assert d * (j * DELTA_T) == j * (d * DELTA_T);
    CancelFactor(j, 3.0 * (d * DELTA_T), 2.0 * o);
  }

  lemma WidthBound(d: real, t: real, o: real)
    requires 0.0 < d && 0.0 <= t <= d * DELTA_T && 3.0 * (d * DELTA_T) <= 2.0 * o
    ensures var w := o + 2.0 * t; 2.0 * d * (t * DELTA_T) <= w * w
  {
    var w, x := o + 2.0 * t, d * DELTA_T;
    assert 2.0 * d * (t * DELTA_T) == 2.0 * (x * t);
    ScaleOrder(x, t, x);
    assert 1.5 * x <= w;
    ScaleOrder(w, 1.5 * x, w);
    ScaleOrder(1.5 * x, 1.5 * x, w);
  }

  lemma TolerableGain(A: real, j: real, d: real, t: real)
    requires 0.0 < A && 0.0 < j && j * DELTA_T <= A && d <= A && t <= d * DELTA_T
    ensures j * t <= A * A
  {
    ScaleOrder(j, t, A * DELTA_T);
    ScaleOrder(A, j * DELTA_T, A);
    assert j * (A * DELTA_T) == A * (j * DELTA_T);
  }

  lemma BrakingNearUpperStop(sqrt: real -> real, p: JointLimits, act: Actuator, q: real)
    requires IsSquareRoot(sqrt) && RoomBetweenStops(p, act)
    ensures var w := p.velocityOffset + 2.0 * p.tolerance;
            var below := BrakingSpeed(sqrt, p.decelerationLimit, -p.lowerPosition + q);
            && (q > p.upperPosition ==>
                  BrakingSpeed(sqrt, p.decelerationLimit, p.upperPosition - q) == 0.0 && w <= below)
            && (q <= p.upperPosition && below < w ==> p.tolerance * DELTA_T <= p.upperPosition - q)
  {
    hide BrakingSpeed;
    var d, w, x := p.decelerationLimit, p.velocityOffset + 2.0 * p.tolerance, -p.lowerPosition + q;
    if q > p.upperPosition {
      BeyondUpperStop(sqrt, d, w, x, p.upperPosition - q);
    } else if BrakingSpeed(sqrt, d, x) < w {
      NearLowerStop(sqrt, d, w, x, p.upperPosition - q, p.tolerance * DELTA_T);
    }
  }

  // The velocity limits at any position, also beyond the upper stop.
  lemma LimitsNearUpperStop(sqrt: real -> real, p: JointLimits, act: Actuator, q: real)
    requires IsSquareRoot(sqrt) && RoomBetweenStops(p, act)
    ensures UpperVelocityLimit(sqrt, p, q) >= -p.tolerance
    ensures q > p.upperPosition ==>
              UpperVelocityLimit(sqrt, p, q) == -p.tolerance && LowerVelocityLimit(sqrt, p, q) <= -p.tolerance
    ensures LowerVelocityLimit(sqrt, p, q) > 0.0 ==> p.tolerance * DELTA_T <= p.upperPosition - q
  {
    hide BrakingSpeed, IsSquareRoot, RoomBetweenStops;
    RoomSigns(p, act);
    BrakingNearUpperStop(sqrt, p, act, q);
  }

  lemma RoomSigns(p: JointLimits, act: Actuator)
    requires RoomBetweenStops(p, act)
    ensures 0.0 <= p.tolerance && 2.0 * p.tolerance <= p.maxVelocity && 0.0 <= p.velocityOffset
  {
  }

  lemma BeyondUpperStop(sqrt: real -> real, d: real, w: real, x: real, y: real)
    requires IsSquareRoot(sqrt) && d > 0.0 && y < 0.0 && w * w <= d * (x + y)
    ensures BrakingSpeed(sqrt, d, y) == 0.0
    ensures w <= BrakingSpeed(sqrt, d, x)
  {
    ScaleOrder(d, y, 0.0);
    assert d * (x + y) == d * x + d * y;
    SquareNonNegative(w);
    BrakingSpeedReaches(sqrt, d, x, w);
    assert 2.0 * d * y == 2.0 * (d * y);
    RootOfZero(sqrt);
  }

  lemma RootOfZero(sqrt: real -> real)
    requires IsSquareRoot(sqrt)
    ensures sqrt(0.0) == 0.0
  {
    assert sqrt(0.0) >= 0.0 && sqrt(0.0) * sqrt(0.0) == 0.0;
    SquareOrder(sqrt(0.0), 0.0);
  }

  lemma BrakingSpeedReaches(sqrt: real -> real, d: real, x: real, w: real)
    requires IsSquareRoot(sqrt) && d > 0.0 && w * w <= 2.0 * (d * x)
    ensures w <= BrakingSpeed(sqrt, d, x)
  {
    SquareNonNegative(w);
    assert 2.0 * d * x == 2.0 * (d * x);
    SquareOrder(w, BrakingSpeed(sqrt, d, x));
  }

  // Close to the lower stop the upper one is at least a distance e away.
  lemma NearLowerStop(sqrt: real -> real, d: real, w: real, x: real, y: real, e: real)
    requires IsSquareRoot(sqrt) && d > 0.0 && BrakingSpeed(sqrt, d, x) < w
    requires 2.0 * d * e <= w * w <= d * (x + y)
    ensures e <= y
  {
    if 2.0 * (d * x) >= w * w {
      BrakingSpeedReaches(sqrt, d, x, w);
    }
    hide BrakingSpeed, IsSquareRoot;
    assert d * (x + y) == d * x + d * y;
    assert 2.0 * d * e == d * (2.0 * e);
    CancelFactor(d, e, y);
  }

  // How far beyond a stop the first position can be asked for and still be
  // pulled back: what the limiter withdraws in one tick at the tolerance.
  function FirstSlack(p: JointLimits, act: Actuator): real
    requires act.maxAcceleration != 0.0
  {
    act.maxJerk / act.maxAcceleration * p.tolerance * (DELTA_T * DELTA_T)
  }

  // The acceleration applied at rest to a joint that is to stay where it is.
  function Pull(k: real, A: real, u: real, l: real): real { Clamp(0.0, Min(k * u, A), Max(k * l, -A)) }

  // f is k * t.
  lemma PullBounds(k: real, A: real, t: real, f: real, u: real, l: real)
    requires k > 0.0 && t >= 0.0 && f == k * t <= A && u >= -t && l <= t
    ensures -f <= Pull(k, A, u, l) <= f
    ensures l <= 0.0 ==> Pull(k, A, u, l) <= 0.0
    ensures u >= 0.0 ==> Pull(k, A, u, l) >= 0.0
    ensures u == -t && l <= -t ==> Pull(k, A, u, l) == -f
    ensures l == t && u >= t ==> Pull(k, A, u, l) == f
  {
    var up, low := k * u, k * l;
    ProductNonNegative(k, t);
    ScaledAbove(k, t, f, u, up);
    ScaledBelow(k, t, f, l, low);
    PullValues(A, f, up, low);
  }

  lemma ScaledAbove(k: real, t: real, f: real, x: real, y: real)
    requires k > 0.0 && x >= -t && f == k * t && y == k * x
    ensures y >= -f && (x >= 0.0 ==> y >= 0.0) && (x >= t ==> y >= f) && (x == -t ==> y == -f)
  {
    ProductNonNegative(k, x + t);
    assert k * (x + t) == k * x + k * t;
    if x >= t { ScaleOrder(k, t, x); }
  }

  lemma ScaledBelow(k: real, t: real, f: real, x: real, y: real)
    requires k > 0.0 && x <= t && f == k * t && y == k * x
    ensures y <= f && (x <= 0.0 ==> y <= 0.0) && (x <= -t ==> y <= -f) && (x == t ==> y == f)
  {
    assert k * x + k * -x == k * (x + -x);
    ScaledAbove(k, t, f, -x, -y);
  }

  lemma PullValues(A: real, f: real, up: real, low: real)
    requires 0.0 <= f <= A && up >= -f && low <= f
    ensures var a := Clamp(0.0, Min(up, A), Max(low, -A));
            && -f <= a <= f && (low <= 0.0 ==> a <= 0.0) && (up >= 0.0 ==> a >= 0.0)
            && (up == -f && low <= -f ==> a == -f) && (low == f && up >= f ==> a == f)
  {
  }

  lemma SmallPull(k: real, t: real, f: real)
    requires k > 0.0 && k * DELTA_T <= 1.0 && t >= 0.0 && f == k * t
    ensures 0.0 <= f * (DELTA_T * DELTA_T) <= t * DELTA_T
  {
    assert 0.0 <= f by { ProductNonNegative(k, t); }
    OneTickGain(k, t, f, DELTA_T);
    OneTickLess(f, t);
  }

  lemma OneTickGain(k: real, t: real, f: real, dt: real)
    requires k * dt <= 1.0 && t >= 0.0 && f == k * t
    ensures f * dt <= t
  {
    ScaleOrder(t, k * dt, 1.0);
    assert t * (k * dt) == (k * t) * dt;
  }

  lemma OneTickLess(f: real, t: real)
    requires 0.0 <= f && f * DELTA_T <= t
    ensures 0.0 <= f * (DELTA_T * DELTA_T) <= t * DELTA_T
  {
  }

  // x and y are the distances to the lower and upper stop, s is the slack.
  lemma PulledBack(a: real, s: real, u: real, l: real, x: real, y: real, e: real)
    requires 0.0 <= s <= e && -s <= a <= s
    requires l <= 0.0 ==> a <= 0.0
    requires u >= 0.0 ==> a >= 0.0
    requires y < 0.0 ==> a == -s && e <= x
    requires x < 0.0 ==> a == s && e <= y
    requires l > 0.0 ==> e <= y
    requires u < 0.0 ==> e <= x
    ensures -x <= a <= y <==> -s <= x && -s <= y
  {
  }

  lemma StaysAtRest(sqrt: real -> real, p: JointLimits, act: Actuator, q: real)
    requires act.maxAcceleration > 0.0 && act.maxJerk > 0.0
    ensures var lim := LimitsAt(sqrt, p, act, q);
            LimitedPosition(sqrt, p, act, JointState(q, 0.0, 0.0), q)
            == q + Pull(act.maxJerk / act.maxAcceleration, act.maxAcceleration, lim.upper, lim.lower)
                   * (DELTA_T * DELTA_T)
  {
    hide UpperVelocityLimit, LowerVelocityLimit, Clamp;
    var lim := LimitsAt(sqrt, p, act, q);
    var k := act.maxJerk / act.maxAcceleration;
    assert CommandedJerk((q - q) / DELTA_T, Motion(0.0, 0.0)) == 0.0;
    RestAcceleration(k, lim);
    hide Pull;
    assert LimitAcceleration(lim, (q - q) / DELTA_T, Motion(0.0, 0.0))
           == Pull(k, act.maxAcceleration, lim.upper, lim.lower);
  }

  lemma RestAcceleration(k: real, lim: Limits)
    requires lim.maxJerk > 0.0
    ensures ClampedAcceleration(k, lim, 0.0, Motion(0.0, 0.0)) == Pull(k, lim.maxAcceleration, lim.upper, lim.lower)
  {
    assert k * (lim.upper - 0.0) == k * lim.upper && k * (lim.lower - 0.0) == k * lim.lower;
  }

  lemma RoomFacts(p: JointLimits, act: Actuator)
    requires RoomBetweenStops(p, act)
    ensures 0.0 < act.maxAcceleration && 0.0 < act.maxJerk
    ensures var k := act.maxJerk / act.maxAcceleration;
            k > 0.0 && k * DELTA_T <= 1.0 && k * p.tolerance <= act.maxAcceleration
    ensures p.tolerance >= 0.0 && p.tolerance * DELTA_T <= p.upperPosition - p.lowerPosition
  {
    var A, j, d, t, r := act.maxAcceleration, act.maxJerk, p.decelerationLimit, p.tolerance,
        p.upperPosition - p.lowerPosition;
    assert 0.0 < A && 0.0 < j && j * DELTA_T <= A && 0.0 < d && t >= 0.0 && j * t <= A * A;
    assert 2.0 * d * (t * DELTA_T) <= d * r;
    hide RoomBetweenStops;
    GainArithmetic(j, A, DELTA_T);
    var k := j / A;
    assert A * (k * t) == j * t;
    CancelFactor(A, k * t, A);
    assert d * (2.0 * (t * DELTA_T)) <= d * r;
    CancelFactor(d, 2.0 * (t * DELTA_T), r);
  }

  // x and y are the distances from the lower and to the upper stop.
  ghost predicate EdgeLimits(t: real, u: real, l: real, x: real, y: real) {
    && u >= -t && l <= t
    && (y < 0.0 ==> u == -t && l <= -t)
    && (x < 0.0 ==> l == t && u >= t)
    && (l > 0.0 ==> t * DELTA_T <= y)
    && (u < 0.0 ==> t * DELTA_T <= x)
  }

  lemma LimitsNearStops(sqrt: real -> real, p: JointLimits, act: Actuator, q: real)
    requires IsSquareRoot(sqrt) && RoomBetweenStops(p, act)
    ensures EdgeLimits(p.tolerance, UpperVelocityLimit(sqrt, p, q), LowerVelocityLimit(sqrt, p, q),
                       q - p.lowerPosition, p.upperPosition - q)
  {
    hide IsSquareRoot, RoomBetweenStops, UpperVelocityLimit, LowerVelocityLimit;
    var m := JointStops.Mirrored(p);
    MirroredHasRoom(p, act);
    LimitsNearUpperStop(sqrt, p, act, q);
    LimitsNearUpperStop(sqrt, m, act, -q);
    LowerIsMirroredUpper(sqrt, p, q);
    LowerIsMirroredUpper(sqrt, m, -q);
  }

  lemma FirstPull(sqrt: real -> real, p: JointLimits, act: Actuator, q: real)
    requires IsSquareRoot(sqrt) && RoomBetweenStops(p, act)
    ensures act.maxAcceleration > 0.0
    ensures var u, l := UpperVelocityLimit(sqrt, p, q), LowerVelocityLimit(sqrt, p, q);
            var a := Pull(act.maxJerk / act.maxAcceleration, act.maxAcceleration, u, l) * (DELTA_T * DELTA_T);
            var x, y := q - p.lowerPosition, p.upperPosition - q;
            -x <= a <= y <==> -FirstSlack(p, act) <= x && -FirstSlack(p, act) <= y
  {
    hide IsSquareRoot, RoomBetweenStops, UpperVelocityLimit, LowerVelocityLimit, EdgeLimits, Pull;
    RoomFacts(p, act);
    LimitsNearStops(sqrt, p, act, q);
    EdgePull(act.maxJerk / act.maxAcceleration, act.maxAcceleration, p.tolerance, UpperVelocityLimit(sqrt, p, q),
             LowerVelocityLimit(sqrt, p, q), q - p.lowerPosition, p.upperPosition - q);
  }

  lemma EdgePull(k: real, A: real, t: real, u: real, l: real, x: real, y: real)
    requires EdgeLimits(t, u, l, x, y) && t * DELTA_T <= x + y
    requires k > 0.0 && k * DELTA_T <= 1.0 && k * t <= A && t >= 0.0
    ensures var s := k * t * (DELTA_T * DELTA_T);
            -x <= Pull(k, A, u, l) * (DELTA_T * DELTA_T) <= y <==> -s <= x && -s <= y
  {
    hide Pull;
    var f := k * t;
    PullBounds(k, A, t, f, u, l);
    assert 0.0 <= f * (DELTA_T * DELTA_T) <= t * DELTA_T by { SmallPull(k, t, f); }
    EdgeMove(Pull(k, A, u, l), f, t, u, l, x, y);
  }

  lemma EdgeMove(a: real, f: real, t: real, u: real, l: real, x: real, y: real)
    requires EdgeLimits(t, u, l, x, y) && t * DELTA_T <= x + y && -f <= a <= f
    requires 0.0 <= f * (DELTA_T * DELTA_T) <= t * DELTA_T
    requires l <= 0.0 ==> a <= 0.0
    requires u >= 0.0 ==> a >= 0.0
    requires u == -t && l <= -t ==> a == -f
    requires l == t && u >= t ==> a == f
    ensures var s := f * (DELTA_T * DELTA_T); -x <= a * (DELTA_T * DELTA_T) <= y <==> -s <= x && -s <= y
  {
    ScaledPull(a, f);
    PulledBack(a * (DELTA_T * DELTA_T), f * (DELTA_T * DELTA_T), u, l, x, y, t * DELTA_T);
  }

  lemma ScaledPull(a: real, f: real)
    requires -f <= a <= f
    ensures var e := DELTA_T * DELTA_T;
            && -(f * e) <= a * e <= f * e
            && (a <= 0.0 ==> a * e <= 0.0) && (a >= 0.0 ==> a * e >= 0.0)
  {
  }

  // The first position sent from rest lies between the stops exactly if the
  // first output exceeds none of them by more than the slack: it is limited
  // against itself, wherever the joint stands.
  lemma FirstPositionInsideExactly(sqrt: real -> real, cfg: Settings, i: nat, q0: real, first: real)
    requires IsSquareRoot(sqrt) && cfg.Valid() && i < 7 && cfg.limitRate
    requires RoomBetweenStops(cfg.limits[i], cfg.actuator)
    ensures var p := cfg.limits[i];
            var slack := FirstSlack(p, cfg.actuator);
            p.lowerPosition
            <= PositionSession(sqrt, cfg, i, JointState(q0, 0.0, 0.0), [first]).position
            <= p.upperPosition
            <==> p.lowerPosition - slack <= first <= p.upperPosition + slack
  {
    hide IsSquareRoot, UpperVelocityLimit, LowerVelocityLimit, LimitedPosition, Filtered, Pull, FirstSlack,
         PositionSession;
    StaysAtRest(sqrt, cfg.limits[i], cfg.actuator, first);
    FirstPull(sqrt, cfg.limits[i], cfg.actuator, first);
    FirstSentPosition(sqrt, cfg, i, q0, first);
  }

  lemma FirstSentPosition(sqrt: real -> real, cfg: Settings, i: nat, q0: real, first: real)
    requires cfg.Valid() && i < 7 && cfg.limitRate
    ensures PositionSession(sqrt, cfg, i, JointState(q0, 0.0, 0.0), [first]).position
            == LimitedPosition(sqrt, cfg.limits[i], cfg.actuator, JointState(first, 0.0, 0.0), first)
  {
    hide Filtered, LimitedPosition;
    FilterKeepsReference(cfg.gain, first);
    assert PositionSession(sqrt, cfg, i, JointState(q0, 0.0, 0.0), [][..0]) == JointState(q0, 0.0, 0.0);
  }

  lemma MirroredHasRoom(p: JointLimits, act: Actuator)
    requires RoomBetweenStops(p, act)
    ensures RoomBetweenStops(JointStops.Mirrored(p), act) && JointStops.Mirrored(JointStops.Mirrored(p)) == p
  {
  }

  // One output far outside is enough, however safe the constants are.
  lemma FirstPositionCrosses(sqrt: real -> real, cfg: Settings, i: nat, q0: real, first: real)
    requires IsSquareRoot(sqrt) && cfg.Valid() && i < 7 && cfg.limitRate
    requires Stoppable(cfg.limits[i], cfg.actuator)
    requires first > cfg.limits[i].upperPosition + FirstSlack(cfg.limits[i], cfg.actuator)
    ensures !WithinStops(cfg.limits[i], cfg.actuator, PositionSession(sqrt, cfg, i, JointState(q0, 0.0, 0.0), [first]))
  {
    hide IsSquareRoot, Stoppable, RoomBetweenStops, PositionSession, FirstSlack;
    StoppableHasRoom(cfg.limits[i], cfg.actuator);
    FirstPositionInsideExactly(sqrt, cfg, i, q0, first);
  }

  // ----- Safe sessions -----

  // The move to the first position is one the limiter could have made from
  // the position of the robot. A first output at that position is one.
  ghost predicate FirstMoveAllowed(sqrt: real -> real, p: JointLimits, act: Actuator, q0: real, sent: real)
    requires act.maxAcceleration != 0.0
  {
    var lim, k, a := LimitsAt(sqrt, p, act, q0), act.maxJerk / act.maxAcceleration, (sent - q0) / DELTA_T / DELTA_T;
    SafeMinAcceleration(k, lim, 0.0) <= a <= SafeMaxAcceleration(k, lim, 0.0)
  }

  lemma StayingIsAllowed(sqrt: real -> real, p: JointLimits, act: Actuator, q0: real)
    requires IsSquareRoot(sqrt) && Stoppable(p, act) && p.lowerPosition <= q0 <= p.upperPosition
    ensures act.maxAcceleration > 0.0
    ensures FirstMoveAllowed(sqrt, p, act, q0, LimitedPosition(sqrt, p, act, JointState(q0, 0.0, 0.0), q0))
  {
    hide IsSquareRoot, Stoppable, Setting, JointInv, MaxExcess, UpperVelocityLimit, LowerVelocityLimit,
         SafeMinAcceleration, SafeMaxAcceleration, CommandedJerk, ClampedAcceleration;
    StoppableSigns(p, act);
    var k, b, s := act.maxJerk / act.maxAcceleration, MaxExcess(p, act), JointState(q0, 0.0, 0.0);
    SettingHolds(sqrt, p, act);
    RestIsSafe(sqrt, p, act, k, b, q0);
    var lim := LimitsAt(sqrt, p, act, q0);
    var jerk := CommandedJerk((q0 - q0) / DELTA_T, Motion(0.0, 0.0));
    AppliedIsInBand(sqrt, p, act, k, b, s, jerk);
    var a := ClampedAcceleration(k, lim, jerk, Motion(0.0, 0.0));
    assert LimitedPosition(sqrt, p, act, s, q0) == q0 + (0.0 + a * DELTA_T) * DELTA_T;
  }

  // After such a start no joint of a limited session ever passes a stop,
  // whatever the callback does and whatever the filter makes of it.
  lemma PositionSessionStaysWithinStops(sqrt: real -> real, cfg: Settings, i: nat, q0: real, first: real,
                                        outs: seq<real>)
    requires IsSquareRoot(sqrt) && cfg.Valid() && i < 7 && cfg.limitRate
    requires Stoppable(cfg.limits[i], cfg.actuator) && cfg.limits[i].lowerPosition <= q0 <= cfg.limits[i].upperPosition
    requires FirstMoveAllowed(sqrt, cfg.limits[i], cfg.actuator, q0,
                              PositionSession(sqrt, cfg, i, JointState(q0, 0.0, 0.0), [first]).position)
    ensures WithinStops(cfg.limits[i], cfg.actuator,
                        PositionSession(sqrt, cfg, i, JointState(q0, 0.0, 0.0), [first] + outs))
  {
    hide IsSquareRoot, Stoppable, Setting, JointInv, MaxExcess, WithinStops, JointRun, UpperVelocityLimit,
         LowerVelocityLimit, SafeMinAcceleration, SafeMaxAcceleration, LimitedPosition, Filtered;
    var p, act, rest := cfg.limits[i], cfg.actuator, JointState(q0, 0.0, 0.0);
    StoppableSigns(p, act);
    var k, b := act.maxJerk / act.maxAcceleration, MaxExcess(p, act);
    SettingHolds(sqrt, p, act);
    RestIsSafe(sqrt, p, act, k, b, q0);
    var s := PositionSession(sqrt, cfg, i, rest, [first]);
    FirstStateAdvances(sqrt, cfg, i, q0, first);
    JointInvKept(sqrt, p, act, k, b, rest, s.acceleration);
    var commands := SessionIsRun(sqrt, cfg, i, rest, first, outs);
    JointStops.RunKeepsInv(sqrt, p, act, k, b, s, commands);
    InvIsSafe(sqrt, p, act, k, b, JointRun(sqrt, p, act, s, commands));
  }

  lemma FirstStateAdvances(sqrt: real -> real, cfg: Settings, i: nat, q0: real, first: real)
    requires cfg.Valid() && i < 7
    ensures var s := PositionSession(sqrt, cfg, i, JointState(q0, 0.0, 0.0), [first]);
            && s.acceleration == (s.position - q0) / DELTA_T / DELTA_T
            && s == Advance(JointState(q0, 0.0, 0.0), s.acceleration)
  {
    hide PositionCommand;
    assert PositionSession(sqrt, cfg, i, JointState(q0, 0.0, 0.0), [first][..0]) == JointState(q0, 0.0, 0.0);
  }

  // So it is if the first output is the position of the robot.
  lemma StartedInPlaceStaysWithinStops(sqrt: real -> real, cfg: Settings, i: nat, q0: real, outs: seq<real>)
    requires IsSquareRoot(sqrt) && cfg.Valid() && i < 7 && cfg.limitRate
    requires Stoppable(cfg.limits[i], cfg.actuator) && cfg.limits[i].lowerPosition <= q0 <= cfg.limits[i].upperPosition
    ensures WithinStops(cfg.limits[i], cfg.actuator,
                        PositionSession(sqrt, cfg, i, JointState(q0, 0.0, 0.0), [q0] + outs))
  {
    hide IsSquareRoot, Stoppable, FirstMoveAllowed, PositionSession, WithinStops, LimitedPosition;
    StayingIsAllowed(sqrt, cfg.limits[i], cfg.actuator, q0);
    FirstSentPosition(sqrt, cfg, i, q0, q0);
    PositionSessionStaysWithinStops(sqrt, cfg, i, q0, q0, outs);
  }

  // ----- Joint velocities -----

  function VelocitySession(sqrt: real -> real, cfg: Settings, i: nat, start: JointState, outs: seq<real>): JointState
    requires cfg.Valid() && i < 7
  {
    if outs == [] then start
    else
      var s := VelocitySession(sqrt, cfg, i, start, outs[..|outs| - 1]);
      var v := VelocityCommand(sqrt, cfg, i, s, outs[|outs| - 1]);
      JointState(s.position + v * DELTA_T, v, (v - s.velocity) / DELTA_T)
  }

  lemma VelocityIsTick(sqrt: real -> real, cfg: Settings, i: nat, s: JointState, out: real)
    requires cfg.Valid() && i < 7 && cfg.limitRate
    ensures var v := VelocityCommand(sqrt, cfg, i, s, out);
            JointState(s.position + v * DELTA_T, v, (v - s.velocity) / DELTA_T)
            == JointTick(sqrt, cfg.limits[i], cfg.actuator, s,
                         s.position + Filtered(cfg.gain, out, s.velocity) * DELTA_T)
  {
    hide LimitAcceleration, LimitsAt, Filtered;
    var w := Filtered(cfg.gain, out, s.velocity);
    assert (s.position + w * DELTA_T - s.position) / DELTA_T == w;
  }

  lemma {:induction false} VelocitySessionIsRun(sqrt: real -> real, cfg: Settings, i: nat, start: JointState,
                                                outs: seq<real>)
    returns (commands: seq<real>)
    requires cfg.Valid() && i < 7 && cfg.limitRate
    ensures VelocitySession(sqrt, cfg, i, start, outs) == JointRun(sqrt, cfg.limits[i], cfg.actuator, start, commands)
  {
    hide VelocityCommand, JointTick, Filtered;
    if outs == [] {
      commands := [];
    } else {
      var n := |outs| - 1;
      var before := VelocitySessionIsRun(sqrt, cfg, i, start, outs[..n]);
      var s := VelocitySession(sqrt, cfg, i, start, outs[..n]);
      VelocityIsTick(sqrt, cfg, i, s, outs[n]);
      commands := before + [s.position + Filtered(cfg.gain, outs[n], s.velocity) * DELTA_T];
      assert commands[..|commands| - 1] == before;
    }
  }

  // The velocity interface always refers to the robot and needs no condition.
  lemma VelocitySessionStaysWithinStops(sqrt: real -> real, cfg: Settings, i: nat, q0: real, outs: seq<real>)
    requires IsSquareRoot(sqrt) && cfg.Valid() && i < 7 && cfg.limitRate
    requires Stoppable(cfg.limits[i], cfg.actuator) && cfg.limits[i].lowerPosition <= q0 <= cfg.limits[i].upperPosition
    ensures WithinStops(cfg.limits[i], cfg.actuator, VelocitySession(sqrt, cfg, i, JointState(q0, 0.0, 0.0), outs))
  {
    hide IsSquareRoot, Stoppable, WithinStops, JointRun, VelocitySession;
    var commands := VelocitySessionIsRun(sqrt, cfg, i, JointState(q0, 0.0, 0.0), outs);
    NeverCrossesStops(sqrt, cfg.limits[i], cfg.actuator, q0, commands, 0.0);
  }

  // ----- The elbow -----

  // The elbow of the pose interface has the same first reference as a joint.
  function ElbowSession(gain: real, limitRate: bool, start: JointState, outs: seq<real>): JointState {
    if outs == [] then start
    else
      var n := |outs| - 1;
      var s := ElbowSession(gain, limitRate, start, outs[..n]);
      Echo(s, ElbowCommand(gain, limitRate, if n == 0 then s.(position := outs[0]) else s, outs[n]))
  }

  ghost predicate ElbowStepLimited(s: JointState, next: JointState) {
    && -1.499 <= next.velocity <= 1.499
    && Abs(next.acceleration) <= 9.999
    && Abs(next.acceleration - s.acceleration) <= 4999.999 * DELTA_T
  }

  ghost predicate ElbowLimited(gain: real, start: JointState, outs: seq<real>) {
    forall n :: 0 <= n < |outs| ==>
      ElbowStepLimited(ElbowSession(gain, true, start, outs[..n]), ElbowSession(gain, true, start, outs[..n + 1]))
  }

  // The first elbow is sent as it is.
  lemma FirstElbow(gain: real, e0: real, first: real)
    ensures ElbowSession(gain, true, JointState(e0, 0.0, 0.0), [first]) == Echo(JointState(e0, 0.0, 0.0), first)
  {
    FilterKeepsReference(gain, first);
    assert ElbowSession(gain, true, JointState(e0, 0.0, 0.0), [first][..0]) == JointState(e0, 0.0, 0.0);
    assert CommandedJerk((first - first) / DELTA_T, Motion(0.0, 0.0)) == 0.0;
    RestAcceleration(4999.999 / 9.999, ELBOW);
  }

  function ElbowMotion(s: JointState): Motion { Motion(s.velocity, s.acceleration) }

  lemma LaterElbow(gain: real, s: JointState, out: real)
    ensures ElbowMotion(Echo(s, ElbowCommand(gain, true, s, out)))
            == Tick(ELBOW, ElbowMotion(s), (Filtered(gain, out, s.position) - s.position) / DELTA_T)
  {
    hide LimitVelocity, Filtered;
  }

  lemma {:induction false} ElbowInv(gain: real, start: JointState, outs: seq<real>)
    requires outs != [] && Inv(4999.999 / 9.999, ELBOW, ElbowMotion(ElbowSession(gain, true, start, outs[..1])))
    ensures Inv(4999.999 / 9.999, ELBOW, ElbowMotion(ElbowSession(gain, true, start, outs)))
  {
    hide Inv, Tick, ElbowCommand, Echo, Filtered;
    var n := |outs| - 1;
    if n == 0 {
      assert outs[..1] == outs;
    } else {
      assert outs[..n][..1] == outs[..1];
      ElbowInv(gain, start, outs[..n]);
      var s := ElbowSession(gain, true, start, outs[..n]);
      LaterElbow(gain, s, outs[n]);
      TickIsLimited(4999.999 / 9.999, ELBOW, ElbowMotion(s),
                    (Filtered(gain, outs[n], s.position) - s.position) / DELTA_T);
    }
  }

  lemma SmallMoveIsInv(a: real)
    requires Abs(a) <= 4999.999 * DELTA_T
    ensures Inv(4999.999 / 9.999, ELBOW, Motion(a * DELTA_T, a))
  {
  }

  // Whatever follows, the elbow keeps its limits exactly if the first output
  // is no further from the robot's elbow than the jerk limit reaches in a tick.
  lemma ElbowIsLimitedExactly(gain: real, e0: real, first: real)
    ensures (forall outs :: ElbowLimited(gain, JointState(e0, 0.0, 0.0), [first] + outs))
            <==> Abs(first - e0) <= 4999.999 * DELTA_T * DELTA_T * DELTA_T
  {
    var start := JointState(e0, 0.0, 0.0);
    FirstElbow(gain, e0, first);
    if Abs(first - e0) <= 4999.999 * DELTA_T * DELTA_T * DELTA_T {
      forall outs ensures ElbowLimited(gain, start, [first] + outs) {
        CloseElbowIsLimited(gain, e0, first, [first] + outs);
      }
    } else {
      assert [first] + [] == [first] && [first][..0] == [] && [first][..1] == [first];
      assert !ElbowStepLimited(ElbowSession(gain, true, start, [first][..0]),
                               ElbowSession(gain, true, start, [first][..1]));
      assert !ElbowLimited(gain, start, [first] + []);
    }
  }

  lemma CloseElbowIsLimited(gain: real, e0: real, first: real, outs: seq<real>)
    requires Abs(first - e0) <= 4999.999 * DELTA_T * DELTA_T * DELTA_T && outs != [] && outs[0] == first
    ensures ElbowLimited(gain, JointState(e0, 0.0, 0.0), outs)
  {
    var start, k := JointState(e0, 0.0, 0.0), 4999.999 / 9.999;
    FirstElbow(gain, e0, first);
    var a := (first - e0) / DELTA_T / DELTA_T;
    SmallMoveIsInv(a);
    assert ElbowStepLimited(start, ElbowSession(gain, true, start, [first]));
    assert Inv(k, ELBOW, ElbowMotion(ElbowSession(gain, true, start, [first])));
    hide Inv, ElbowStepLimited, ElbowSession;
    assert outs[..1] == [first];
    forall n | 0 <= n < |outs|
      ensures ElbowStepLimited(ElbowSession(gain, true, start, outs[..n]),
                               ElbowSession(gain, true, start, outs[..n + 1]))
    {
      if n == 0 {
        NoElbowYet(gain, start);
        assert outs[..0] == [];
      } else {
        LaterElbowIsLimited(gain, start, outs, n);
      }
    }
  }

  lemma NoElbowYet(gain: real, start: JointState)
    ensures ElbowSession(gain, true, start, []) == start
  {
  }

  lemma LaterElbowIsLimited(gain: real, start: JointState, outs: seq<real>, n: nat)
    requires 0 < n < |outs| && Inv(4999.999 / 9.999, ELBOW, ElbowMotion(ElbowSession(gain, true, start, outs[..1])))
    ensures ElbowStepLimited(ElbowSession(gain, true, start, outs[..n]), ElbowSession(gain, true, start, outs[..n + 1]))
  {
    hide Inv, Tick, ElbowCommand, Echo, Filtered;
    assert outs[..n][..1] == outs[..1] && outs[..n + 1][..n] == outs[..n];
    ElbowInv(gain, start, outs[..n]);
    var s := ElbowSession(gain, true, start, outs[..n]);
    LaterElbow(gain, s, outs[n]);
    ElbowTick(ElbowMotion(s), (Filtered(gain, outs[n], s.position) - s.position) / DELTA_T);
  }

  lemma ElbowTick(m: Motion, command: real)
    requires Inv(4999.999 / 9.999, ELBOW, m)
    ensures var next := Tick(ELBOW, m, command);
            && -1.499 <= next.velocity <= 1.499
            && Abs(next.acceleration) <= 9.999
            && Abs(next.acceleration - m.acceleration) <= 4999.999 * DELTA_T
  {
    hide Tick;
    TickIsLimited(4999.999 / 9.999, ELBOW, m, command);
  }

  // The elbow of the velocity interface refers to the robot from the start.
  function VelocityElbow(gain: real, limitRate: bool, start: JointState, outs: seq<real>): JointState {
    if outs == [] then start
    else
      var s := VelocityElbow(gain, limitRate, start, outs[..|outs| - 1]);
      Echo(s, ElbowCommand(gain, limitRate, s, outs[|outs| - 1]))
  }

  lemma {:induction false} VelocityElbowIsLimited(gain: real, e0: real, outs: seq<real>, next: real)
    ensures var s := VelocityElbow(gain, true, JointState(e0, 0.0, 0.0), outs);
            && Inv(4999.999 / 9.999, ELBOW, ElbowMotion(s))
            && ElbowStepLimited(s, Echo(s, ElbowCommand(gain, true, s, next)))
  {
    hide Inv, Tick, ElbowCommand, Echo, Filtered;
    var s := VelocityElbow(gain, true, JointState(e0, 0.0, 0.0), outs);
    if outs == [] {
      RestSatisfiesInv(4999.999 / 9.999, ELBOW, 0.0);
    } else {
      var n := |outs| - 1;
      VelocityElbowIsLimited(gain, e0, outs[..n], outs[n]);
      var last := VelocityElbow(gain, true, JointState(e0, 0.0, 0.0), outs[..n]);
      LaterElbow(gain, last, outs[n]);
      TickIsLimited(4999.999 / 9.999, ELBOW, ElbowMotion(last),
                    (Filtered(gain, outs[n], last.position) - last.position) / DELTA_T);
    }
    LaterElbow(gain, s, next);
    ElbowTick(ElbowMotion(s), (Filtered(gain, next, s.position) - s.position) / DELTA_T);
  }
}
