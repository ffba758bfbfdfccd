/** The scalar and per-joint limiters of libfranka/src/rate_limiting.cpp. */
module RateLimiter {
  import opened Reals

  const DELTA_T: real := 0.001

  datatype Limits = Limits(upper: real, lower: real, maxAcceleration: real, maxJerk: real) {
    // What the limits must satisfy for the limiter to be able to keep them.
    ghost predicate Feasible() {
      && 0.0 < maxAcceleration
      && 0.0 < maxJerk
      && maxJerk * DELTA_T <= maxAcceleration
    }
  }

  datatype Motion = Motion(velocity: real, acceleration: real)

  function Clamp(x: real, hi: real, lo: real): real { Max(Min(x, hi), lo) }

  // The gain is how fast acceleration is withdrawn near a velocity limit.
  function SafeMaxAcceleration(gain: real, lim: Limits, velocity: real): real {
    Min(gain * (lim.upper - velocity), lim.maxAcceleration)
  }

  function SafeMinAcceleration(gain: real, lim: Limits, velocity: real): real {
    Max(gain * (lim.lower - velocity), -lim.maxAcceleration)
  }

  // The acceleration applied for one tick: jerk is clamped first, then acceleration.
  function ClampedAcceleration(gain: real, lim: Limits, jerk: real, last: Motion): real {
    var wanted := last.acceleration + Clamp(jerk, lim.maxJerk, -lim.maxJerk) * DELTA_T;
    Clamp(wanted, SafeMaxAcceleration(gain, lim, last.velocity), SafeMinAcceleration(gain, lim, last.velocity))
  }

  function CommandedJerk(command: real, last: Motion): real {
    ((command - last.velocity) / DELTA_T - last.acceleration) / DELTA_T
  }

  function LimitAcceleration(lim: Limits, command: real, last: Motion): real
    requires lim.maxAcceleration != 0.0
  {
    ClampedAcceleration(lim.maxJerk / lim.maxAcceleration, lim, CommandedJerk(command, last), last)
  }

  function LimitVelocity(lim: Limits, command: real, last: Motion): real
    requires lim.maxAcceleration != 0.0
  {
    last.velocity + LimitAcceleration(lim, command, last) * DELTA_T
  }

  function LimitPosition(lim: Limits, command: real, position: real, last: Motion): real
    requires lim.maxAcceleration != 0.0
  {
    position + LimitVelocity(lim, (command - position) / DELTA_T, last) * DELTA_T
  }

  // ----- One tick, for an arbitrary commanded jerk -----

  ghost predicate IsGain(gain: real, lim: Limits) {
    && gain > 0.0
    && gain * lim.maxAcceleration == lim.maxJerk
    && gain * DELTA_T <= 1.0
  }

  lemma GainArithmetic(j: real, a: real, dt: real)
    requires j > 0.0 && a > 0.0 && j * dt <= a
    ensures j / a > 0.0 && (j / a) * a == j && (j / a) * dt <= 1.0
  {
    var k := j / a;
    assert k * a == j;
    assert a * (k * dt) == j * dt;
    if k * dt > 1.0 {
      ProductPositive(a, k * dt - 1.0);
    }
  }

  lemma GainExists(lim: Limits)
    requires lim.Feasible()
    ensures IsGain(lim.maxJerk / lim.maxAcceleration, lim)
  {
    GainArithmetic(lim.maxJerk, lim.maxAcceleration, DELTA_T);
  }

  // Room to brake: gap is the distance to a velocity limit, a the acceleration
  // towards it. Keeping the gap non-negative is inductive only together with
  // the second conjunct, which leaves room to withdraw the present acceleration.
  ghost predicate Room(k: real, dt: real, gap: real, a: real) {
    && gap >= 0.0
    && a * (1.0 - k * dt) <= k * gap
  }

  ghost predicate Inv(gain: real, lim: Limits, s: Motion) {
    && -lim.maxAcceleration <= s.acceleration <= lim.maxAcceleration
    && Room(gain, DELTA_T, lim.upper - s.velocity, s.acceleration)
    && Room(gain, DELTA_T, s.velocity - lim.lower, -s.acceleration)
  }

  lemma RoomReachable(k: real, dt: real, A: real, gap: real, a: real)
    requires k > 0.0 && dt > 0.0 && A > 0.0 && a <= A && Room(k, dt, gap, a)
    ensures a - (k * A) * dt <= Min(k * gap, A)
    ensures 0.0 <= Min(k * gap, A)
  {
    ProductNonNegative(k, gap);
    ProductPositive(k, dt);
    ProductPositive(k * dt, A);
    ScaleOrder(k * dt, a, A);
    assert (k * dt) * A == (k * A) * dt;
    assert a * (1.0 - k * dt) == a - (k * dt) * a;
  }

  lemma RoomKept(k: real, dt: real, gap: real, a: real)
    requires k > 0.0 && dt > 0.0 && k * dt <= 1.0 && gap >= 0.0 && a <= k * gap
    ensures Room(k, dt, gap - a * dt, a)
  {
    ScaleOrder(dt, a, k * gap);
    ScaleOrder(gap, k * dt, 1.0);
    assert dt * (k * gap) == gap * (k * dt);
    assert k * (gap - a * dt) == k * gap - a * (k * dt);
    assert a * (1.0 - k * dt) == a - a * (k * dt);
  }

  // The lower limit is the upper limit seen with all signs flipped.
  function Mirrored(lim: Limits): Limits { lim.(upper := -lim.lower, lower := -lim.upper) }

  lemma SafeMinIsMirrored(k: real, lim: Limits, v: real)
    ensures SafeMinAcceleration(k, lim, v) == -SafeMaxAcceleration(k, Mirrored(lim), -v)
  {
    assert k * (lim.lower - v) == -(k * (-lim.lower - (-v)));
  }

  lemma UpperReachable(k: real, lim: Limits, v: real, a: real)
    requires lim.Feasible() && IsGain(k, lim)
    requires a <= lim.maxAcceleration && Room(k, DELTA_T, lim.upper - v, a)
    ensures a - lim.maxJerk * DELTA_T <= SafeMaxAcceleration(k, lim, v)
    ensures 0.0 <= SafeMaxAcceleration(k, lim, v)
  {
    RoomReachable(k, DELTA_T, lim.maxAcceleration, lim.upper - v, a);
  }

  // The braking band is never empty and always reachable within the jerk limit.
  lemma BandReachable(k: real, lim: Limits, s: Motion)
    requires lim.Feasible() && IsGain(k, lim) && Inv(k, lim, s)
    ensures SafeMinAcceleration(k, lim, s.velocity) <= 0.0 <= SafeMaxAcceleration(k, lim, s.velocity)
    ensures s.acceleration - lim.maxJerk * DELTA_T <= SafeMaxAcceleration(k, lim, s.velocity)
    ensures SafeMinAcceleration(k, lim, s.velocity) <= s.acceleration + lim.maxJerk * DELTA_T
  {
    UpperReachable(k, lim, s.velocity, s.acceleration);
    var m := Mirrored(lim);
    assert m.upper - (-s.velocity) == s.velocity - lim.lower;
    UpperReachable(k, m, -s.velocity, -s.acceleration);
    SafeMinIsMirrored(k, lim, s.velocity);
  }

  // A commanded jerk beyond the limit is the same as one at the limit.
  lemma ClampedWithin(k: real, lim: Limits, s: Motion, jerk: real)
    requires lim.Feasible() && IsGain(k, lim) && Inv(k, lim, s)
    ensures var a := ClampedAcceleration(k, lim, jerk, s);
            && SafeMinAcceleration(k, lim, s.velocity) <= a <= SafeMaxAcceleration(k, lim, s.velocity)
            && Abs(a - s.acceleration) <= lim.maxJerk * DELTA_T
  {
    BandReachable(k, lim, s);
    ScaleOrder(DELTA_T, Clamp(jerk, lim.maxJerk, -lim.maxJerk), lim.maxJerk);
    ScaleOrder(DELTA_T, -lim.maxJerk, Clamp(jerk, lim.maxJerk, -lim.maxJerk));
  }

  lemma UpperKept(k: real, lim: Limits, v: real, a: real)
    requires IsGain(k, lim) && v <= lim.upper && a <= SafeMaxAcceleration(k, lim, v)
    ensures Room(k, DELTA_T, lim.upper - (v + a * DELTA_T), a)
  {
    RoomKept(k, DELTA_T, lim.upper - v, a);
    assert lim.upper - v - a * DELTA_T == lim.upper - (v + a * DELTA_T);
  }

  lemma StepKeepsInv(k: real, lim: Limits, s: Motion, a: real)
    requires lim.Feasible() && IsGain(k, lim) && Inv(k, lim, s)
    requires SafeMinAcceleration(k, lim, s.velocity) <= a <= SafeMaxAcceleration(k, lim, s.velocity)
    ensures Inv(k, lim, Motion(s.velocity + a * DELTA_T, a))
  {
    var v, m := s.velocity, Mirrored(lim);
    assert Room(k, DELTA_T, lim.upper - (v + a * DELTA_T), a) by {
      UpperKept(k, lim, v, a);
    }
    assert Room(k, DELTA_T, v + a * DELTA_T - lim.lower, -a) by {
      SafeMinIsMirrored(k, lim, v);
      UpperKept(k, m, -v, -a);
      assert m.upper - (-v + (-a) * DELTA_T) == v + a * DELTA_T - lim.lower;
    }
  }

  // ----- Runs with constant velocity limits, as for the elbow -----

  // The robot echoes the limited command as its next desired velocity and acceleration.
  function Tick(lim: Limits, last: Motion, command: real): Motion
    requires lim.maxAcceleration != 0.0
  {
    var v := LimitVelocity(lim, command, last);
    Motion(v, (v - last.velocity) / DELTA_T)
  }

  function Run(lim: Limits, start: Motion, commands: seq<real>): Motion
    requires lim.maxAcceleration != 0.0
  {
    if commands == [] then start
    else Tick(lim, Run(lim, start, commands[..|commands| - 1]), commands[|commands| - 1])
  }

  lemma TickIsStep(lim: Limits, s: Motion, command: real)
    requires lim.maxAcceleration != 0.0
    ensures var a := LimitAcceleration(lim, command, s);
            Tick(lim, s, command) == Motion(s.velocity + a * DELTA_T, a)
  {
  }

  lemma TickIsLimited(k: real, lim: Limits, s: Motion, command: real)
    requires lim.Feasible() && k == lim.maxJerk / lim.maxAcceleration && Inv(k, lim, s)
    ensures Inv(k, lim, Tick(lim, s, command))
    ensures Abs(Tick(lim, s, command).acceleration - s.acceleration) <= lim.maxJerk * DELTA_T
  {
    GainExists(lim);
    ClampedWithin(k, lim, s, CommandedJerk(command, s));
    StepKeepsInv(k, lim, s, LimitAcceleration(lim, command, s));
    TickIsStep(lim, s, command);
  }

  lemma {:induction false} RunKeepsInv(k: real, lim: Limits, start: Motion, commands: seq<real>)
    requires lim.Feasible() && k == lim.maxJerk / lim.maxAcceleration && Inv(k, lim, start)
    ensures Inv(k, lim, Run(lim, start, commands))
  {
    if commands != [] {
      RunKeepsInv(k, lim, start, commands[..|commands| - 1]);
      TickIsLimited(k, lim, Run(lim, start, commands[..|commands| - 1]), commands[|commands| - 1]);
    }
  }

  lemma RestSatisfiesInv(k: real, lim: Limits, v0: real)
    requires k > 0.0 && lim.maxAcceleration > 0.0 && lim.lower <= v0 <= lim.upper
    ensures Inv(k, lim, Motion(v0, 0.0))
  {
    ProductNonNegative(k, lim.upper - v0);
    ProductNonNegative(k, v0 - lim.lower);
  }

  // Every run from rest keeps velocity, acceleration and jerk limits at once.
  lemma RunFromRestIsLimited(lim: Limits, v0: real, commands: seq<real>, next: real)
    requires lim.Feasible() && lim.lower <= v0 <= lim.upper
    ensures var s := Run(lim, Motion(v0, 0.0), commands);
            && lim.lower <= s.velocity <= lim.upper
            && Abs(s.acceleration) <= lim.maxAcceleration
            && Abs(Tick(lim, s, next).acceleration - s.acceleration) <= lim.maxJerk * DELTA_T
  {
    var k, rest := lim.maxJerk / lim.maxAcceleration, Motion(v0, 0.0);
    var s := Run(lim, rest, commands);
    assert Inv(k, lim, s) by {
      GainExists(lim);
      RestSatisfiesInv(k, lim, v0);
      RunKeepsInv(k, lim, rest, commands);
    }
    TickIsLimited(k, lim, s, next);
  }

  // A velocity the limiter accepts: it respects the jerk limit and the braking band.
  ghost predicate Admissible(lim: Limits, s: Motion, velocity: real)
    requires lim.maxAcceleration != 0.0
  {
    var a, k := (velocity - s.velocity) / DELTA_T, lim.maxJerk / lim.maxAcceleration;
    && Abs(a - s.acceleration) <= lim.maxJerk * DELTA_T
    && SafeMinAcceleration(k, lim, s.velocity) <= a <= SafeMaxAcceleration(k, lim, s.velocity)
  }

  // Clamping twice lands on the point of the two intervals nearest to the wish.
  lemma NearestInBand(k: real, lim: Limits, s: Motion, wish: real, b: real)
    requires lim.Feasible() && IsGain(k, lim) && Inv(k, lim, s)
    requires Abs(b - s.acceleration) <= lim.maxJerk * DELTA_T
    requires SafeMinAcceleration(k, lim, s.velocity) <= b <= SafeMaxAcceleration(k, lim, s.velocity)
    ensures Abs(ClampedAcceleration(k, lim, (wish - s.acceleration) / DELTA_T, s) - wish) <= Abs(b - wish)
  {
    BandReachable(k, lim, s);
    var jerk, J := (wish - s.acceleration) / DELTA_T, lim.maxJerk;
    assert jerk * DELTA_T == wish - s.acceleration;
    assert Clamp(jerk, J, -J) * DELTA_T == Clamp(wish - s.acceleration, J * DELTA_T, -J * DELTA_T);
  }

  // The limiter intervenes as little as possible: on every reachable state its
  // output is the admissible velocity closest to the command.
  lemma OutputIsClosestAdmissible(lim: Limits, s: Motion, command: real, other: real)
    requires lim.Feasible() && Inv(lim.maxJerk / lim.maxAcceleration, lim, s) && Admissible(lim, s, other)
    ensures Admissible(lim, s, LimitVelocity(lim, command, s))
    ensures Abs(LimitVelocity(lim, command, s) - command) <= Abs(other - command)
  {
    GainExists(lim);
    var k := lim.maxJerk / lim.maxAcceleration;
    ClampedWithin(k, lim, s, CommandedJerk(command, s));
    TickIsStep(lim, s, command);
    var wish, b := (command - s.velocity) / DELTA_T, (other - s.velocity) / DELTA_T;
    NearestInBand(k, lim, s, wish, b);
    var a := LimitAcceleration(lim, command, s);
    assert LimitVelocity(lim, command, s) - command == (a - wish) * DELTA_T;
    assert other - command == (b - wish) * DELTA_T;
  }

  // Hence the command passes unchanged exactly when it is admissible.
  lemma PassesUnchangedExactly(lim: Limits, s: Motion, command: real)
    requires lim.Feasible() && Inv(lim.maxJerk / lim.maxAcceleration, lim, s)
    ensures LimitVelocity(lim, command, s) == command <==> Admissible(lim, s, command)
  {
    GainExists(lim);
    ClampedWithin(lim.maxJerk / lim.maxAcceleration, lim, s, CommandedJerk(command, s));
    TickIsStep(lim, s, command);
    if Admissible(lim, s, command) {
      OutputIsClosestAdmissible(lim, s, command, command);
    }
  }

  // ----- The per-joint loops -----

  // The torque limiter moves every component to the point nearest its command
  // among those reachable from the last value within one sample time.
  method LimitTorqueRate(maxDerivatives: seq<real>, commanded: seq<real>, last: seq<real>)
    returns (limited: array<real>)
    requires |maxDerivatives| == |commanded| == |last| == 7
    requires forall i :: 0 <= i < 7 ==> maxDerivatives[i] >= 0.0
    ensures fresh(limited) && limited.Length == 7
    ensures forall i :: 0 <= i < 7 ==>
              limited[i] == Clamp(commanded[i], last[i] + maxDerivatives[i] * DELTA_T,
                                  last[i] - maxDerivatives[i] * DELTA_T)
  {
    limited := new real[7];
    for n := 0 to 7
      invariant forall i :: 0 <= i < n ==>
                              limited[i] == Clamp(commanded[i], last[i] + maxDerivatives[i] * DELTA_T,
                                  last[i] - maxDerivatives[i] * DELTA_T)
    {
      var derivative := (commanded[n] - last[n]) / DELTA_T;
      limited[n] := last[n] + Max(Min(derivative, maxDerivatives[n]), -maxDerivatives[n]) * DELTA_T;
    }
  }
}
