/** The robot behind the ros2_control interface: franka_ros2/franka_hardware/src/robot.cpp. */
module HardwareRobot {
  import opened Options
  import opened PoseLimiter
  import opened Rotations
  import opened VectorLimiter

  // The controls of libfranka that the interface can start.
  datatype Control =
    | TorqueControl | JointVelocityControl | JointPositionControl | CartesianVelocityControl | CartesianPoseControl

  // How one attempt to start a control ends.
  datatype Attempt = Starts | ControlFails | OtherwiseFails

  // A command as it is handed to the active control.
  datatype Sent = Sent(control: Control, command: seq<real>, elbow: Option<seq<real>>)

  // writeOnce returns, throws a std::runtime_error, or throws std::invalid_argument,
  // because of the size of the command or because libfranka refuses its values.
  datatype WriteResult = Written | RuntimeError | UnknownSize | InvalidValues

  const MAX_JOINTS := 7
  const MAX_CARTESIAN_VELOCITIES := 6
  const MAX_ELBOW_COMMANDS := 2
  const MAX_CARTESIAN_POSE_COMMANDS := 16

  // A vector copied into a zero-initialised array of n elements.
  function Padded(command: seq<real>, n: nat): (r: seq<real>)
    requires |command| <= n
    ensures |r| == n && command <= r && (|command| == n ==> r == command)
  {
    command + seq(n - |command|, _ => 0.0)
  }

  // The first attempt starts the control, or fails in a way that is recovered from
  // and the second starts it.
  predicate SucceedsInTwo(first: Attempt, recovers: bool, second: Attempt) {
    first.Starts? || (first.ControlFails? && recovers && second.Starts?)
  }

  function SizeFor(control: Control): nat {
    match control
    case CartesianVelocityControl => MAX_CARTESIAN_VELOCITIES
    case CartesianPoseControl => MAX_CARTESIAN_POSE_COMMANDS
    case _ => MAX_JOINTS
  }

  // ----- What libfranka demands of a command -----

  // A pose is given column by column.
  function ToTransform(c: seq<real>): Transform
    requires |c| == MAX_CARTESIAN_POSE_COMMANDS
  {
    Transform(Mat3(Vec3(c[0], c[1], c[2]), Vec3(c[4], c[5], c[6]), Vec3(c[8], c[9], c[10])),
              Vec3(c[12], c[13], c[14]), Vec3(c[3], c[7], c[11]), c[15])
  }

  // Spelled out: the pose maps a point p to the product of the matrix whose entry in row r
  // and column k is c[4 * k + r] with (p, 1).
  lemma PoseIsColumnMajor(c: seq<real>, p: Vec3)
    requires |c| == MAX_CARTESIAN_POSE_COMMANDS
    ensures var t := ToTransform(c);
            var image := Add(Apply(t.linear, p), t.translation);
            && image.x == c[0] * p.x + c[4] * p.y + c[8] * p.z + c[12]
            && image.y == c[1] * p.x + c[5] * p.y + c[9] * p.z + c[13]
            && image.z == c[2] * p.x + c[6] * p.y + c[10] * p.z + c[14]
            && Row(t.bottom.x, t.bottom.y, t.bottom.z, p) + t.corner == c[3] * p.x + c[7] * p.y + c[11] * p.z + c[15]
  {
  }

  // An elbow of zeros counts as none; of any other the sign has to be 1 or -1.
  predicate ValidElbow(elbow: Option<seq<real>>) {
    elbow.Some? && |elbow.value| == MAX_ELBOW_COMMANDS && elbow.value != [0.0, 0.0] ==> elbow.value[1] in {1.0, -1.0}
  }

  predicate ValidValues(sqrt: real -> real, s: Sent) {
    && (s.control == CartesianPoseControl && |s.command| == MAX_CARTESIAN_POSE_COMMANDS ==>
          IsHomogeneous(sqrt, ToTransform(s.command)))
    && ValidElbow(s.elbow)
  }

  function Answer(sqrt: real -> real, s: Sent, accepted: bool): WriteResult {
    if !ValidValues(sqrt, s) then InvalidValues else if accepted then Written else RuntimeError
  }

  // Zeros are no pose, and an elbow needs a sign.
  lemma InvalidPoseAndElbow(sqrt: real -> real, elbow: Option<seq<real>>, command: seq<real>, control: Control)
    ensures !ValidValues(sqrt, Sent(CartesianPoseControl, seq(MAX_CARTESIAN_POSE_COMMANDS, _ => 0.0), elbow))
    ensures !ValidValues(sqrt, Sent(control, command, Some([0.5, 0.0])))
  {
  }

  class Robot {
    const sqrt: real -> real
    var activeControl: Option<Control>
    var effortInterfaceActive: bool
    var jointVelocityInterfaceActive: bool
    var jointPositionInterfaceActive: bool
    var cartesianVelocityInterfaceActive: bool
    var cartesianPoseInterfaceActive: bool
    ghost var sent: seq<Sent>

    // The flags name the active control: at most one is set, and one is set exactly
    // while a control is active.
    ghost predicate Valid()
      reads this
    {
      && (effortInterfaceActive <==> activeControl == Some(TorqueControl))
      && (jointVelocityInterfaceActive <==> activeControl == Some(JointVelocityControl))
      && (jointPositionInterfaceActive <==> activeControl == Some(JointPositionControl))
      && (cartesianVelocityInterfaceActive <==> activeControl == Some(CartesianVelocityControl))
      && (cartesianPoseInterfaceActive <==> activeControl == Some(CartesianPoseControl))
    }

    constructor (sqrt: real -> real)
      ensures Valid() && activeControl == None && sent == [] && this.sqrt == sqrt
    {
      this.sqrt := sqrt;
      activeControl, sent := None, [];
      effortInterfaceActive, jointVelocityInterfaceActive, jointPositionInterfaceActive := false, false, false;
      cartesianVelocityInterfaceActive, cartesianPoseInterfaceActive := false, false;
    }

    // The flags for torques, joint velocities, joint positions, Cartesian velocities and poses.
    function Flags(): seq<bool>
      reads this
    {
      [effortInterfaceActive, jointVelocityInterfaceActive, jointPositionInterfaceActive,
       cartesianVelocityInterfaceActive, cartesianPoseInterfaceActive]
    }

    method StopRobot()
      requires Valid()
      modifies this`activeControl, this`effortInterfaceActive, this`jointVelocityInterfaceActive,
               this`jointPositionInterfaceActive, this`cartesianVelocityInterfaceActive,
               this`cartesianPoseInterfaceActive
      ensures Valid() && activeControl == None
    {
      if activeControl.Some? {
        effortInterfaceActive := false;
        jointVelocityInterfaceActive := false;
        jointPositionInterfaceActive := false;
        cartesianVelocityInterfaceActive := false;
        cartesianPoseInterfaceActive := false;
        activeControl := None;
      }
    }

    // A start that a control exception ends is tried once more after error recovery.
    method Start(control: Control, first: Attempt, recovers: bool, second: Attempt) returns (ok: bool)
      modifies this`activeControl
      ensures ok == SucceedsInTwo(first, recovers, second)
      ensures ok <==> first == Starts || (first == ControlFails && recovers && second == Starts)
      ensures activeControl == if ok then Some(control) else old(activeControl)
    {
      ok := first.Starts?;
      if first.ControlFails? {
        ok := recovers && second.Starts?;
      }
      if ok {
        activeControl := Some(control);
      }
    }

    method InitializeTorqueInterface(first: Attempt, recovers: bool, second: Attempt) returns (ok: bool)
      modifies this`activeControl, this`effortInterfaceActive
      ensures ok == SucceedsInTwo(first, recovers, second)
      ensures old(Valid()) && old(activeControl) == None ==>
                Valid() && activeControl == if ok then Some(TorqueControl) else None
      ensures effortInterfaceActive == (ok || old(effortInterfaceActive))
    {
      ok := Start(TorqueControl, first, recovers, second);
      if ok {
        effortInterfaceActive := true;
      }
    }

    method InitializeJointVelocityInterface(first: Attempt, recovers: bool, second: Attempt) returns (ok: bool)
      modifies this`activeControl, this`jointVelocityInterfaceActive
      ensures ok == SucceedsInTwo(first, recovers, second)
      ensures old(Valid()) && old(activeControl) == None ==>
                Valid() && activeControl == if ok then Some(JointVelocityControl) else None
      ensures jointVelocityInterfaceActive == (ok || old(jointVelocityInterfaceActive))
    {
      ok := Start(JointVelocityControl, first, recovers, second);
      if ok {
        jointVelocityInterfaceActive := true;
      }
    }

    method InitializeJointPositionInterface(first: Attempt, recovers: bool, second: Attempt) returns (ok: bool)
      modifies this`activeControl, this`jointPositionInterfaceActive
      ensures ok == SucceedsInTwo(first, recovers, second)
      ensures old(Valid()) && old(activeControl) == None ==>
                Valid() && activeControl == if ok then Some(JointPositionControl) else None
      ensures jointPositionInterfaceActive == (ok || old(jointPositionInterfaceActive))
    {
      ok := Start(JointPositionControl, first, recovers, second);
      if ok {
        jointPositionInterfaceActive := true;
      }
    }

    method InitializeCartesianVelocityInterface(first: Attempt, recovers: bool, second: Attempt) returns (ok: bool)
      modifies this`activeControl, this`cartesianVelocityInterfaceActive
      ensures ok == SucceedsInTwo(first, recovers, second)
      ensures old(Valid()) && old(activeControl) == None ==>
                Valid() && activeControl == if ok then Some(CartesianVelocityControl) else None
      ensures cartesianVelocityInterfaceActive == (ok || old(cartesianVelocityInterfaceActive))
    {
      ok := Start(CartesianVelocityControl, first, recovers, second);
      if ok {
        cartesianVelocityInterfaceActive := true;
      }
    }

    method InitializeCartesianPoseInterface(first: Attempt, recovers: bool, second: Attempt) returns (ok: bool)
      modifies this`activeControl, this`cartesianPoseInterfaceActive
      ensures ok == SucceedsInTwo(first, recovers, second)
      ensures old(Valid()) && old(activeControl) == None ==>
                Valid() && activeControl == if ok then Some(CartesianPoseControl) else None
      ensures cartesianPoseInterfaceActive == (ok || old(cartesianPoseInterfaceActive))
    {
      ok := Start(CartesianPoseControl, first, recovers, second);
      if ok {
        cartesianPoseInterfaceActive := true;
      }
    }

    // Hands the command to the control, which refuses invalid values and may refuse
    // any other command with an exception of its own.
    method Pass(control: Control, command: seq<real>, elbow: Option<seq<real>>, accepted: bool) returns (r: WriteResult)
      modifies this`sent
      ensures r == Answer(sqrt, Sent(control, command, elbow), accepted)
      ensures sent == old(sent) + [Sent(control, command, elbow)]
    {
      sent := sent + [Sent(control, command, elbow)];
      r := Answer(sqrt, Sent(control, command, elbow), accepted);
    }

    // With coherent flags the command goes to the active control whenever it fits, and
    // the branch that reports an unknown size is taken only if it does not.
    method WriteOnce(command: seq<real>, accepted: bool) returns (r: WriteResult)
      requires Valid()
      modifies this`sent
      ensures activeControl == None ==> r == RuntimeError && sent == old(sent)
      ensures activeControl.Some? && |command| <= SizeFor(activeControl.value) ==>
                var s := Sent(activeControl.value, Padded(command, SizeFor(activeControl.value)), None);
                r == Answer(sqrt, s, accepted) && sent == old(sent) + [s]
      ensures r == UnknownSize <==> activeControl.Some? && |command| > SizeFor(activeControl.value)
      ensures r == UnknownSize ==> sent == old(sent)
    {
      if activeControl.None? {
        return RuntimeError;
      }
      if (jointPositionInterfaceActive || jointVelocityInterfaceActive || effortInterfaceActive)
          && |command| <= MAX_JOINTS {
        var joints := Padded(command, MAX_JOINTS);
        if effortInterfaceActive {
          r := Pass(TorqueControl, joints, None, accepted);
        } else if jointVelocityInterfaceActive {
          r := Pass(JointVelocityControl, joints, None, accepted);
        } else {
          r := Pass(JointPositionControl, joints, None, accepted);
        }
        return;
      }
      if cartesianVelocityInterfaceActive && |command| <= MAX_CARTESIAN_VELOCITIES {
        r := Pass(CartesianVelocityControl, Padded(command, MAX_CARTESIAN_VELOCITIES), None, accepted);
        return;
      }
      if cartesianPoseInterfaceActive && |command| <= MAX_CARTESIAN_POSE_COMMANDS {
        r := Pass(CartesianPoseControl, Padded(command, MAX_CARTESIAN_POSE_COMMANDS), None, accepted);
        return;
      }
      return UnknownSize;
    }

    method WriteOnceWithElbow(command: seq<real>, elbow: seq<real>, accepted: bool) returns (r: WriteResult)
      requires Valid()
      modifies this`sent
      ensures activeControl == None ==> r == RuntimeError && sent == old(sent)
      ensures activeControl in {Some(CartesianVelocityControl), Some(CartesianPoseControl)}
              && |command| == SizeFor(activeControl.value) && |elbow| == MAX_ELBOW_COMMANDS ==>
                var s := Sent(activeControl.value, command, Some(elbow));
                r == Answer(sqrt, s, accepted) && sent == old(sent) + [s]
      ensures r == UnknownSize <==>
                activeControl.Some?
                && !(activeControl.value in {CartesianVelocityControl, CartesianPoseControl}
                     && |command| == SizeFor(activeControl.value) && |elbow| == MAX_ELBOW_COMMANDS)
      ensures r == UnknownSize ==> sent == old(sent)
    {
      hide ValidValues;
      if activeControl.None? {
        return RuntimeError;
      }
      if cartesianVelocityInterfaceActive && |command| == MAX_CARTESIAN_VELOCITIES && |elbow| == MAX_ELBOW_COMMANDS {
        r := Pass(CartesianVelocityControl, command, Some(elbow), accepted);
        return;
      }
      if cartesianPoseInterfaceActive && |command| == MAX_CARTESIAN_POSE_COMMANDS && |elbow| == MAX_ELBOW_COMMANDS {
        r := Pass(CartesianPoseControl, command, Some(elbow), accepted);
        return;
      }
      return UnknownSize;
    }
  }
}
