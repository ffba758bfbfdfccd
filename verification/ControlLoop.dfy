/** How libfranka/src/control_loop.cpp turns callback output into joint commands. */
module ControlLoop {
  import opened Reals
  import opened RateLimiter
  import opened JointStops

  // gain is the low-pass gain, 1 when the cutoff frequency disables the filter.
  datatype Settings = Settings(gain: real, limitRate: bool, limits: seq<JointLimits>, actuator: Actuator) {
    ghost predicate Valid() {
      |limits| == 7 && actuator.maxAcceleration > 0.0
    }
  }

  datatype Desired = Desired(q_d: seq<real>, dq_d: seq<real>, ddq_d: seq<real>) {
    ghost predicate Valid() {
      |q_d| == 7 && |dq_d| == 7 && |ddq_d| == 7
    }

    function Joint(i: nat, reference: real): JointState
      requires Valid() && i < 7
    {
      JointState(reference, dq_d[i], ddq_d[i])
    }
  }

  function Filtered(gain: real, value: real, last: real): real { gain * value + (1.0 - gain) * last }

  // The way to the value is multiplied by 1 - gain, the way from the last value by the gain.
  lemma FilterShrinks(gain: real, value: real, last: real)
    ensures Filtered(gain, value, last) - value == (1.0 - gain) * (last - value)
    ensures Filtered(gain, value, last) - last == gain * (value - last)
  {
  }

  // The position commanded to one joint whose reference state is s.
  function PositionCommand(sqrt: real -> real, cfg: Settings, i: nat, s: JointState, motion: real): real
    requires cfg.Valid() && i < 7
  {
    var command := Filtered(cfg.gain, motion, s.position);
    if cfg.limitRate then LimitedPosition(sqrt, cfg.limits[i], cfg.actuator, s, command) else command
  }

  function VelocityCommand(sqrt: real -> real, cfg: Settings, i: nat, s: JointState, motion: real): real
    requires cfg.Valid() && i < 7
  {
    var command := Filtered(cfg.gain, motion, s.velocity);
    if cfg.limitRate
    then LimitVelocity(LimitsAt(sqrt, cfg.limits[i], cfg.actuator, s.position), command,
                       Motion(s.velocity, s.acceleration))
    else command
  }

  // The same for all joints.
  const MAX_TORQUE_RATE := 1000.0 - 0.001

  function TorqueCommand(cfg: Settings, i: nat, last: real, torque: real): real
    requires i < 7
  {
    var command, most := Filtered(cfg.gain, torque, last), MAX_TORQUE_RATE * DELTA_T;
    if cfg.limitRate then Clamp(command, last + most, last - most) else command
  }

  class JointLoop {
    const cfg: Settings
    var initializedFilter: bool

    constructor (cfg: Settings)
      requires cfg.Valid()
      ensures this.cfg == cfg && !initializedFilter
    {
      this.cfg := cfg;
      initializedFilter := false;
    }

    // On the first call the commanded position is its own reference.
    method ConvertPositions(sqrt: real -> real, motion: seq<real>, state: Desired) returns (command: array<real>)
      requires cfg.Valid() && state.Valid() && |motion| == 7
      modifies this`initializedFilter
      ensures initializedFilter
      ensures fresh(command) && command.Length == 7
      ensures forall i :: 0 <= i < 7 ==>
                command[i] == PositionCommand(sqrt, cfg, i,
                    state.Joint(i, if old(initializedFilter) then state.q_d[i] else motion[i]), motion[i])
      // Without the limiter the rest of the way to the output is what the filter leaves of it.
      ensures !cfg.limitRate ==>
                forall i :: 0 <= i < 7 ==>
                  command[i] - motion[i]
                  == (1.0 - cfg.gain) * ((if old(initializedFilter) then state.q_d[i] else motion[i]) - motion[i])
    {
      hide Filtered, LimitedPosition;
      command := new real[7];
      forall i | 0 <= i < 7 { command[i] := motion[i]; }
      var reference := motion;
      if !initializedFilter {
        initializedFilter := true;
      } else {
        reference := state.q_d;
      }
      for n := 0 to 7
        invariant initializedFilter
        invariant forall i :: 0 <= i < n ==> command[i] == Filtered(cfg.gain, motion[i], reference[i])
        invariant forall i :: n <= i < 7 ==> command[i] == motion[i]
      {
        command[n] := Filtered(cfg.gain, command[n], reference[n]);
      }
      if cfg.limitRate {
        for n := 0 to 7
          invariant initializedFilter
          invariant forall i :: 0 <= i < n ==>
                      command[i] == PositionCommand(sqrt, cfg, i, state.Joint(i, reference[i]), motion[i])
          invariant forall i :: n <= i < 7 ==> command[i] == Filtered(cfg.gain, motion[i], reference[i])
        {
          command[n] := LimitedPosition(sqrt, cfg.limits[n], cfg.actuator, state.Joint(n, reference[n]), command[n]);
        }
      }
      forall i | 0 <= i < 7
        ensures Filtered(cfg.gain, motion[i], reference[i]) - motion[i]
                == (1.0 - cfg.gain) * (reference[i] - motion[i])
      {
        FilterShrinks(cfg.gain, motion[i], reference[i]);
      }
    }

    method ConvertVelocities(sqrt: real -> real, motion: seq<real>, state: Desired) returns (command: array<real>)
      requires cfg.Valid() && state.Valid() && |motion| == 7
      ensures fresh(command) && command.Length == 7
      ensures forall i :: 0 <= i < 7 ==>
                command[i] == VelocityCommand(sqrt, cfg, i, state.Joint(i, state.q_d[i]), motion[i])
      ensures !cfg.limitRate ==>
                forall i :: 0 <= i < 7 ==>
                  command[i] - motion[i] == (1.0 - cfg.gain) * (state.dq_d[i] - motion[i])
    {
      hide Filtered, LimitVelocity;
      command := new real[7];
      for n := 0 to 7
        invariant forall i :: 0 <= i < n ==> command[i] == Filtered(cfg.gain, motion[i], state.dq_d[i])
      {
        command[n] := Filtered(cfg.gain, motion[n], state.dq_d[n]);
      }
      if cfg.limitRate {
        for n := 0 to 7
          invariant forall i :: 0 <= i < n ==>
                      command[i] == VelocityCommand(sqrt, cfg, i, state.Joint(i, state.q_d[i]), motion[i])
          invariant forall i :: n <= i < 7 ==> command[i] == Filtered(cfg.gain, motion[i], state.dq_d[i])
        {
          command[n] := LimitVelocity(LimitsAt(sqrt, cfg.limits[n], cfg.actuator, state.q_d[n]), command[n],
                                      Motion(state.dq_d[n], state.ddq_d[n]));
        }
      }
      forall i | 0 <= i < 7
        ensures Filtered(cfg.gain, motion[i], state.dq_d[i]) - motion[i]
                == (1.0 - cfg.gain) * (state.dq_d[i] - motion[i])
      {
        FilterShrinks(cfg.gain, motion[i], state.dq_d[i]);
      }
    }

    // createControlCommand: the torques of the control callback refer to the last ones sent.
    method ConvertTorques(torques: seq<real>, last: seq<real>) returns (command: array<real>)
      requires |torques| == 7 == |last|
      ensures fresh(command) && command.Length == 7
      ensures forall i :: 0 <= i < 7 ==> command[i] == TorqueCommand(cfg, i, last[i], torques[i])
    {
      hide Filtered, Clamp;
      command := new real[7];
      for n := 0 to 7
        invariant forall i :: 0 <= i < n ==> command[i] == Filtered(cfg.gain, torques[i], last[i])
      {
        command[n] := Filtered(cfg.gain, torques[n], last[n]);
      }
      if cfg.limitRate {
        command := LimitTorqueRate(seq(7, _ => MAX_TORQUE_RATE), command[..], last);
      }
    }
  }

  // The elbow of a pose: limited towards its reference with constant limits.
  const ELBOW := Limits(1.499, -1.499, 9.999, 4999.999)

  function ElbowCommand(gain: real, limitRate: bool, s: JointState, motion: real): real {
    var command := Filtered(gain, motion, s.position);
    if limitRate then LimitPosition(ELBOW, command, s.position, Motion(s.velocity, s.acceleration)) else command
  }
}
