/**
  The low-pass filters of libfranka/src/lowpass_filter.cpp, and whole sessions of
  libfranka/src/control_loop.cpp with the limiter off, which is the default.
 */
module FilterSessions {
  import opened ControlLoop
  import opened JointSessions
  import opened JointStops
  import opened Options
  import opened PoseLimiter
  import opened PoseSessions
  import opened RateLimiter
  import opened Reals
  import opened Rotations
  import opened VectorLimiter

  // ----- The gain -----

  const MAX_CUTOFF_FREQUENCY := 1000.0

  // The gain of the filter; pi is the ratio of a circle's circumference to its diameter.
  function FilterGain(pi: real, cutoff: real): real
    requires pi > 0.0 && cutoff > 0.0
  {
    ProductPositive(pi, cutoff);
    QuotientIsPositive(1.0, 2.0 * pi * cutoff);
    DELTA_T / (DELTA_T + 1.0 / (2.0 * pi * cutoff))
  }

  // The gain that the control loop applies: none from the maximal frequency on.
  function LoopGain(pi: real, cutoff: real): real
    requires pi > 0.0 && cutoff > 0.0
  {
    if cutoff < MAX_CUTOFF_FREQUENCY then FilterGain(pi, cutoff) else 1.0
  }

  lemma QuotientIsPositive(a: real, b: real)
    requires a > 0.0 && b > 0.0
    ensures a / b > 0.0
  {
  }

  // What is left of a difference after one tick: the filter is strictly between
  // holding the last value and passing the new one on.
  lemma GainIsFraction(pi: real, cutoff: real)
    requires pi > 0.0 && cutoff > 0.0
    ensures 0.0 < FilterGain(pi, cutoff) < 1.0
    ensures (1.0 - FilterGain(pi, cutoff)) * (1.0 + 2.0 * pi * cutoff * DELTA_T) == 1.0
    ensures 0.0 < LoopGain(pi, cutoff) <= 1.0
    ensures LoopGain(pi, cutoff) == 1.0 <==> cutoff >= MAX_CUTOFF_FREQUENCY
  {
    ProductPositive(pi, cutoff);
    GainForm(2.0 * pi * cutoff, FilterGain(pi, cutoff), DELTA_T);
  }

  lemma GainForm(w: real, gain: real, dt: real)
    requires w > 0.0 && dt > 0.0
    requires 1.0 / w > 0.0 && gain == dt / (dt + 1.0 / w)
    ensures 0.0 < gain < 1.0 && (1.0 - gain) * (1.0 + w * dt) == 1.0
  {
    var c := 1.0 / w;
    assert c * w == 1.0;
    var sum := dt + c;
    assert gain * sum == dt;
    assert (1.0 - gain) * sum == c;
    assert gain > 0.0 by { QuotientIsPositive(dt, sum); }
    assert 1.0 - gain == c / sum;
    assert 1.0 - gain > 0.0 by { QuotientIsPositive(c, sum); }
    assert sum * w == 1.0 + w * dt;
    assert (1.0 - gain) * (sum * w) == c * w;
  }

  // ----- The filter -----

  lemma FilterStaysBetween(gain: real, value: real, last: real, low: real, high: real)
    requires 0.0 <= gain <= 1.0 && low <= value <= high && low <= last <= high
    ensures low <= Filtered(gain, value, last) <= high
  {
    ProductNonNegative(gain, value - low);
    ProductNonNegative(1.0 - gain, last - low);
    ProductNonNegative(gain, high - value);
    ProductNonNegative(1.0 - gain, high - last);
    MixOfDifferences(gain, value, last, low);
    MixOfDifferences(gain, value, last, high);
  }

  lemma MixOfDifferences(gain: real, value: real, last: real, from: real)
    ensures Filtered(gain, value, last) - from == gain * (value - from) + (1.0 - gain) * (last - from)
    ensures from - Filtered(gain, value, last) == gain * (from - value) + (1.0 - gain) * (from - last)
  {
  }

  function Power(x: real, n: nat): real { if n == 0 then 1.0 else x * Power(x, n - 1) }

  lemma {:induction false} PowerOfFraction(x: real, n: nat)
    requires 0.0 <= x <= 1.0
    ensures 0.0 <= Power(x, n) <= 1.0
  {
    if n > 0 {
      PowerOfFraction(x, n - 1);
      ProductNonNegative(x, Power(x, n - 1));
      var p := Power(x, n - 1);
      assert x * p <= x * 1.0 by { ScaleOrder(x, p, 1.0); }
    }
  }

  // A signal through the filter.
  function FilterRun(gain: real, start: real, outs: seq<real>): real {
    if outs == [] then start
    else Filtered(gain, outs[|outs| - 1], FilterRun(gain, start, outs[..|outs| - 1]))
  }

  // Of a constant signal it takes the same fraction of the way in each tick.
  lemma {:induction false} FilterRunApproaches(gain: real, start: real, value: real, n: nat)
    ensures FilterRun(gain, start, seq(n, _ => value)) - value == Power(1.0 - gain, n) * (start - value)
  {
    if n > 0 {
      var outs := seq(n, _ => value);
      assert outs[..n - 1] == seq(n - 1, _ => value);
      FilterRunApproaches(gain, start, value, n - 1);
      FilterShrinks(gain, value, FilterRun(gain, start, outs[..n - 1]));
      hide Filtered;
      Reassociate(1.0 - gain, Power(1.0 - gain, n - 1), start - value);
    }
  }

  lemma Reassociate(a: real, b: real, c: real)
    ensures a * (b * c) == a * b * c
  {
  }

  // It never leaves the range of the signal.
  lemma {:induction false} FilterRunStaysBetween(gain: real, start: real, outs: seq<real>, low: real, high: real)
    requires 0.0 <= gain <= 1.0 && low <= start <= high && forall k :: 0 <= k < |outs| ==> low <= outs[k] <= high
    ensures low <= FilterRun(gain, start, outs) <= high
  {
    hide Filtered;
    if outs != [] {
      var n := |outs| - 1;
      FilterRunStaysBetween(gain, start, outs[..n], low, high);
      FilterStaysBetween(gain, outs[n], FilterRun(gain, start, outs[..n]), low, high);
    }
  }

  // Without a filter the signal is passed on.
  lemma FilterOffPasses(start: real, outs: seq<real>)
    requires outs != []
    ensures FilterRun(1.0, start, outs) == outs[|outs| - 1]
  {
    FilterOff(outs[|outs| - 1], FilterRun(1.0, start, outs[..|outs| - 1]));
  }

  // ----- Joints -----

  // With the limiter off a session of positions is its first output followed by the
  // filter, wherever the robot stood.
  lemma {:induction false} UnlimitedPositions(sqrt: real -> real, cfg: Settings, i: nat, start: JointState,
                                              first: real, outs: seq<real>)
    requires cfg.Valid() && i < 7 && !cfg.limitRate
    ensures PositionSession(sqrt, cfg, i, start, [first] + outs).position == FilterRun(cfg.gain, first, outs)
  {
    hide Filtered, LimitedPosition;
    if outs == [] {
      assert [first] + outs == [first] && [first][..0] == [];
      FilterKeepsReference(cfg.gain, first);
    } else {
      var n := |outs| - 1;
      assert ([first] + outs)[..n + 1] == [first] + outs[..n];
      UnlimitedPositions(sqrt, cfg, i, start, first, outs[..n]);
    }
  }

  // So a constant output is approached by the same factor in each tick.
  lemma UnlimitedPositionsApproach(sqrt: real -> real, cfg: Settings, i: nat, start: JointState, first: real,
                                   goal: real, n: nat)
    requires cfg.Valid() && i < 7 && !cfg.limitRate
    ensures PositionSession(sqrt, cfg, i, start, [first] + seq(n, _ => goal)).position - goal
            == Power(1.0 - cfg.gain, n) * (first - goal)
  {
    hide PositionSession, FilterRun, Power;
    UnlimitedPositions(sqrt, cfg, i, start, first, seq(n, _ => goal));
    FilterRunApproaches(cfg.gain, first, goal, n);
  }

  lemma UnlimitedPositionsStayBetween(sqrt: real -> real, cfg: Settings, i: nat, start: JointState, outs: seq<real>,
                                      low: real, high: real)
    requires cfg.Valid() && i < 7 && !cfg.limitRate && 0.0 <= cfg.gain <= 1.0
    requires outs != [] && forall k :: 0 <= k < |outs| ==> low <= outs[k] <= high
    ensures low <= PositionSession(sqrt, cfg, i, start, outs).position <= high
    ensures cfg.gain == 1.0 ==> PositionSession(sqrt, cfg, i, start, outs).position == outs[|outs| - 1]
  {
    hide PositionSession, FilterRun;
    assert [outs[0]] + outs[1..] == outs;
    UnlimitedPositions(sqrt, cfg, i, start, outs[0], outs[1..]);
    FilterRunStaysBetween(cfg.gain, outs[0], outs[1..], low, high);
    if |outs| > 1 {
      FilterOffPasses(outs[0], outs[1..]);
    } else {
      NothingFiltered(cfg.gain, outs[0]);
    }
  }

  lemma NothingFiltered(gain: real, start: real)
    ensures FilterRun(gain, start, []) == start
  {
  }

  // A session of velocities is the filter from the robot's velocity on.
  lemma {:induction false} UnlimitedVelocities(sqrt: real -> real, cfg: Settings, i: nat, start: JointState,
                                               outs: seq<real>)
    requires cfg.Valid() && i < 7 && !cfg.limitRate
    ensures VelocitySession(sqrt, cfg, i, start, outs).velocity == FilterRun(cfg.gain, start.velocity, outs)
  {
    hide Filtered, LimitVelocity, LimitsAt;
    if outs != [] {
      UnlimitedVelocities(sqrt, cfg, i, start, outs[..|outs| - 1]);
    }
  }

  lemma UnlimitedVelocitiesApproach(sqrt: real -> real, cfg: Settings, i: nat, start: JointState, goal: real, n: nat)
    requires cfg.Valid() && i < 7 && !cfg.limitRate
    ensures VelocitySession(sqrt, cfg, i, start, seq(n, _ => goal)).velocity - goal
            == Power(1.0 - cfg.gain, n) * (start.velocity - goal)
  {
    hide VelocitySession, FilterRun, Power;
    UnlimitedVelocities(sqrt, cfg, i, start, seq(n, _ => goal));
    FilterRunApproaches(cfg.gain, start.velocity, goal, n);
  }

  // The robot holds the torques it was sent: those of joint i, with the limiter or without.
  function TorqueSession(cfg: Settings, i: nat, start: real, outs: seq<real>): real
    requires i < 7
  {
    if outs == [] then start
    else TorqueCommand(cfg, i, TorqueSession(cfg, i, start, outs[..|outs| - 1]), outs[|outs| - 1])
  }

  lemma {:induction false} UnlimitedTorques(cfg: Settings, i: nat, start: real, outs: seq<real>)
    requires i < 7 && !cfg.limitRate
    ensures TorqueSession(cfg, i, start, outs) == FilterRun(cfg.gain, start, outs)
  {
    hide Filtered;
    if outs != [] {
      UnlimitedTorques(cfg, i, start, outs[..|outs| - 1]);
    }
  }

  // With the limiter a torque changes by at most the maximal rate in a tick, in the
  // direction of the filtered output and no further than it, and as far as it may.
  lemma LimitedTorqueApproaches(cfg: Settings, i: nat, last: real, out: real)
    requires i < 7 && cfg.limitRate
    ensures var sent, wanted := TorqueCommand(cfg, i, last, out), Filtered(cfg.gain, out, last);
            var most := (1000.0 - 0.001) * DELTA_T;
            && (wanted >= last ==> last <= sent <= wanted && (sent == wanted || sent == last + most))
            && (wanted <= last ==> wanted <= sent <= last && (sent == wanted || sent == last - most))
            && Abs(sent - last) <= most
  {
  }

  // ----- The elbow -----

  lemma {:induction false} UnlimitedElbow(gain: real, start: JointState, first: real, outs: seq<real>)
    ensures ElbowSession(gain, false, start, [first] + outs).position == FilterRun(gain, first, outs)
  {
    hide Filtered, LimitPosition;
    if outs == [] {
      assert [first] + outs == [first] && [first][..0] == [];
      FilterKeepsReference(gain, first);
    } else {
      var n := |outs| - 1;
      assert ([first] + outs)[..n + 1] == [first] + outs[..n];
      UnlimitedElbow(gain, start, first, outs[..n]);
    }
  }

  lemma {:induction false} UnlimitedVelocityElbow(gain: real, start: JointState, outs: seq<real>)
    ensures VelocityElbow(gain, false, start, outs).position == FilterRun(gain, start.position, outs)
  {
    hide Filtered, LimitPosition;
    if outs != [] {
      UnlimitedVelocityElbow(gain, start, outs[..|outs| - 1]);
    }
  }

  lemma UnlimitedElbowApproaches(gain: real, start: JointState, first: real, goal: real, n: nat)
    ensures ElbowSession(gain, false, start, [first] + seq(n, _ => goal)).position - goal
            == Power(1.0 - gain, n) * (first - goal)
    ensures VelocityElbow(gain, false, start, seq(n, _ => goal)).position - goal
            == Power(1.0 - gain, n) * (start.position - goal)
  {
    hide ElbowSession, VelocityElbow, FilterRun, Power;
    UnlimitedElbow(gain, start, first, seq(n, _ => goal));
    UnlimitedVelocityElbow(gain, start, seq(n, _ => goal));
    FilterRunApproaches(gain, first, goal, n);
    FilterRunApproaches(gain, start.position, goal, n);
  }

  // ----- Poses -----

  // What is known of the interpolation of rotations: it yields rotations, and between
  // two rotations that are less than 3 radians apart, the rotation vector that is left
  // after a part of the way is the rest of the whole one.
  ghost predicate SoundSlerp(lib: Library) {
    && (forall gain: real, a, b :: IsRotation(a) && IsRotation(b) ==> IsRotation(lib.slerp(gain, a, b)))
    && (forall gain: real, a, b :: 0.0 <= gain <= 1.0 && IsRotation(a) && IsRotation(b)
                                   && SquaredNorm(lib.rotationVector(Times(b, Transposed(a)))) < 9.0 ==>
          lib.rotationVector(Times(b, Transposed(lib.slerp(gain, a, b))))
          == Scale(lib.rotationVector(Times(b, Transposed(a))), 1.0 - gain))
  }

  function TurnLeft(lib: Library, from: Transform, to: Transform): Vec3 {
    lib.rotationVector(Times(lib.rotationPart(to.linear), Transposed(lib.rotationPart(from.linear))))
  }

  function Translations(outs: seq<Transform>): (ts: seq<Vec3>)
    ensures |ts| == |outs|
  {
    seq(|outs|, k requires 0 <= k < |outs| => outs[k].translation)
  }

  function Xs(ts: seq<Vec3>): (r: seq<real>) { seq(|ts|, k requires 0 <= k < |ts| => ts[k].x) }

  function Ys(ts: seq<Vec3>): (r: seq<real>) { seq(|ts|, k requires 0 <= k < |ts| => ts[k].y) }

  function Zs(ts: seq<Vec3>): (r: seq<real>) { seq(|ts|, k requires 0 <= k < |ts| => ts[k].z) }

  function FilterRun3(gain: real, start: Vec3, ts: seq<Vec3>): Vec3 {
    Vec3(FilterRun(gain, start.x, Xs(ts)), FilterRun(gain, start.y, Ys(ts)), FilterRun(gain, start.z, Zs(ts)))
  }

  function Filtered3(gain: real, value: Vec3, last: Vec3): Vec3 {
    Vec3(Filtered(gain, value.x, last.x), Filtered(gain, value.y, last.y), Filtered(gain, value.z, last.z))
  }

  lemma FilterRun3Step(gain: real, start: Vec3, ts: seq<Vec3>)
    requires ts != []
    ensures FilterRun3(gain, start, ts)
            == Filtered3(gain, ts[|ts| - 1], FilterRun3(gain, start, ts[..|ts| - 1]))
  {
    hide Filtered;
    var n := |ts| - 1;
    assert Xs(ts)[..n] == Xs(ts[..n]) && Ys(ts)[..n] == Ys(ts[..n]) && Zs(ts)[..n] == Zs(ts[..n]);
  }

  lemma FilteredTranslation(lib: Library, cfg: PoseSettings, current: Transform, last: Transform)
    ensures AfterFilter(lib, cfg, current, last).translation
            == Filtered3(cfg.Gain(), current.translation, last.translation)
  {
    hide Filtered;
    if cfg.filter.None? {
      FilterOff(current.translation.x, last.translation.x);
      FilterOff(current.translation.y, last.translation.y);
      FilterOff(current.translation.z, last.translation.z);
    }
  }

  lemma FilterOfItself3(gain: real, v: Vec3)
    ensures Filtered3(gain, v, v) == v
  {
    hide Filtered;
    FilterKeepsReference(gain, v.x);
    FilterKeepsReference(gain, v.y);
    FilterKeepsReference(gain, v.z);
  }

  // One pose sent without the limiter: what the filter makes of it, if that is a pose.
  lemma UnlimitedPose(lib: Library, cfg: PoseSettings, s: PoseMotion, motion: Transform)
    requires !cfg.limitRate
    ensures var r := PoseCommand(lib, cfg, s, motion);
            r.Accepted? ==>
              r.value.translation == Filtered3(cfg.Gain(), motion.translation, s.pose.translation)
              && (cfg.filter.None? ==> r.value == motion)
  {
    hide IsHomogeneous, FilteredPose, Filtered3, LimitPose;
    FilteredTranslation(lib, cfg, motion, s.pose);
  }

  // With the limiter off the translations of a session are the first one followed by
  // the filter, and without a filter the poses are sent as they are.
  lemma {:induction false} UnlimitedPoses(lib: Library, cfg: PoseSettings, start: Transform, first: Transform,
                                          outs: seq<Transform>)
    requires !cfg.limitRate && PoseSession(lib, cfg, start, [first] + outs).Accepted?
    ensures var pose := PoseSession(lib, cfg, start, [first] + outs).value.pose;
            && pose.translation == FilterRun3(cfg.Gain(), first.translation, Translations(outs))
            && (cfg.filter.None? ==> pose == ([first] + outs)[|outs|])
  {
    hide PoseCommand, FilterRun3, Filtered3, CommandedTwist;
    var all := [first] + outs;
    if outs == [] {
      assert all == [first] && all[..0] == [];
      UnlimitedPose(lib, cfg, AtRest(start).(pose := first), first);
      FilterOfItself3(cfg.Gain(), first.translation);
      NoTranslations(cfg.Gain(), first.translation);
    } else {
      var n := |outs| - 1;
      assert all[..n + 1] == [first] + outs[..n];
      UnlimitedPoses(lib, cfg, start, first, outs[..n]);
      var s := PoseSession(lib, cfg, start, [first] + outs[..n]).value;
      UnlimitedPose(lib, cfg, s, outs[n]);
      FilterRun3Step(cfg.Gain(), first.translation, Translations(outs));
      assert Translations(outs)[..n] == Translations(outs[..n]);
    }
  }

  lemma NoTranslations(gain: real, v: Vec3)
    ensures FilterRun3(gain, v, Translations([])) == v
  {
  }

  // One turn through the filter: it goes the gain's part of the way.
  lemma FilteredTurn(lib: Library, cfg: PoseSettings, s: PoseMotion, goal: Transform)
    requires lib.Sound() && SoundSlerp(lib) && !cfg.limitRate && cfg.filter.Some? && 0.0 <= cfg.filter.value <= 1.0
    requires goal.bottom == ZERO && goal.corner == 1.0 && SquaredNorm(TurnLeft(lib, s.pose, goal)) < 9.0
    ensures var r := PoseCommand(lib, cfg, s, goal);
            && r.Accepted? && Rigid(r.value)
            && TurnLeft(lib, r.value, goal) == Scale(TurnLeft(lib, s.pose, goal), 1.0 - cfg.filter.value)
  {
    hide IsRotation, SquaredNorm, Times, Transposed, Scale, IsSquareRoot, IsHomogeneous, LimitPose, Filtered;
    var a, b := lib.rotationPart(s.pose.linear), lib.rotationPart(goal.linear);
    var m := lib.slerp(cfg.filter.value, a, b);
    assert IsRotation(m) && lib.rotationPart(m) == m;
    RigidIsHomogeneous(lib.sqrt, FilteredPose(lib, cfg.filter.value, goal, s.pose));
  }

  // With the limiter off a constant pose is approached by the same factor in each tick,
  // the rotation on the shortest way.
  lemma {:induction false} UnlimitedPosesApproach(lib: Library, cfg: PoseSettings, start: Transform, first: Transform,
                                                  goal: Transform, n: nat)
    requires lib.Sound() && SoundVectors(lib) && SoundSlerp(lib)
    requires !cfg.limitRate && cfg.filter.Some? && 0.0 <= cfg.filter.value <= 1.0
    requires first.bottom == ZERO && first.corner == 1.0 && goal.bottom == ZERO && goal.corner == 1.0
    requires SquaredNorm(TurnLeft(lib, first, goal)) < 9.0
    ensures var r := PoseSession(lib, cfg, start, [first] + seq(n, _ => goal));
            && r.Accepted?
            && TurnLeft(lib, r.value.pose, goal) == Scale(TurnLeft(lib, first, goal), Power(1.0 - cfg.filter.value, n))
  {
    hide Library.Sound, SoundVectors, SoundSlerp, PoseCommand, CommandedTwist, SquaredNorm, TurnLeft, Scale, Power,
         Rigid;
    var all, left, g := [first] + seq(n, _ => goal), TurnLeft(lib, first, goal), cfg.filter.value;
    if n == 0 {
      assert all == [first] && all[..0] == [];
      FirstFiltered(lib, cfg, AtRest(start).(pose := first));
      SameTurnLeft(lib, AfterFilter(lib, cfg, first, first), first, goal);
      ScaleByPower(left, 1.0 - g, 0);
    } else {
      assert all[..n] == [first] + seq(n - 1, _ => goal);
      UnlimitedPosesApproach(lib, cfg, start, first, goal, n - 1);
      var s := PoseSession(lib, cfg, start, all[..n]).value;
      ScaleByPower(left, 1.0 - g, n);
      PowerOfFraction(1.0 - g, n - 1);
      ShrunkStaysShort(left, Power(1.0 - g, n - 1));
      FilteredTurn(lib, cfg, s, goal);
      assert all[n] == goal;
    }
  }

  lemma FirstFiltered(lib: Library, cfg: PoseSettings, s: PoseMotion)
    requires lib.Sound() && SoundVectors(lib) && !cfg.limitRate && cfg.filter.Some?
    requires s.pose.bottom == ZERO && s.pose.corner == 1.0
    ensures PoseCommand(lib, cfg, s, s.pose) == Accepted(AfterFilter(lib, cfg, s.pose, s.pose))
    ensures lib.rotationPart(AfterFilter(lib, cfg, s.pose, s.pose).linear) == lib.rotationPart(s.pose.linear)
  {
    hide IsRotation, Times, Transposed, IsSquareRoot, IsHomogeneous, LimitPose, Filtered;
    RigidIsHomogeneous(lib.sqrt, AfterFilter(lib, cfg, s.pose, s.pose));
  }

  lemma SameTurnLeft(lib: Library, a: Transform, b: Transform, goal: Transform)
    requires lib.rotationPart(a.linear) == lib.rotationPart(b.linear)
    ensures TurnLeft(lib, a, goal) == TurnLeft(lib, b, goal)
  {
  }

  lemma ScaleByPower(v: Vec3, x: real, n: nat)
    ensures if n == 0 then Scale(v, Power(x, 0)) == v
            else Scale(Scale(v, Power(x, n - 1)), x) == Scale(v, Power(x, n))
  {
    if n > 0 {
      var p := Power(x, n - 1);
      assert Power(x, n) == x * p;
      hide Power;
      Reassociate3(v.x, p, x);
      Reassociate3(v.y, p, x);
      Reassociate3(v.z, p, x);
    }
  }

  lemma Reassociate3(a: real, p: real, x: real)
    ensures a * p * x == a * (x * p)
  {
  }

  lemma ShrunkStaysShort(v: Vec3, f: real)
    requires SquaredNorm(v) < 9.0 && 0.0 <= f <= 1.0
    ensures SquaredNorm(Scale(v, f)) < 9.0
  {
    hide SquaredNorm, Scale;
    SquaredNormNonNegative(v);
    SquaredNormScaled(v, f);
    FractionTwice(f, SquaredNorm(v), SquaredNorm(Scale(v, f)));
  }

  lemma FractionTwice(f: real, q: real, r: real)
    requires 0.0 <= f <= 1.0 && q >= 0.0 && r == f * f * q
    ensures r <= q
  {
    assert f * f <= 1.0 by { ProductNonNegative(f, 1.0 - f); }
    assert (1.0 - f * f) * q >= 0.0 by { ProductNonNegative(1.0 - f * f, q); }
  }
}
