/** Modes, claims and seeding of franka_ros2/franka_hardware/src/franka_hardware_interface.cpp.
    Every callback is one atomic step. */
module HardwareInterface {
  import opened HardwareRobot
  import opened Options

  datatype Mode = NoMode | Effort | JointVelocity | JointPosition | CartesianVelocity | CartesianVelocityWithElbow
                | CartesianPose | CartesianPoseWithElbow

  datatype RobotState = RobotState(q: seq<real>, pose: seq<real>, elbow: seq<real>)

  datatype Reading = ReadState(state: RobotState) | ReadControlError | ReadOtherError

  datatype ReturnType = Ok | Error | Escaped

  datatype Event = Switched(mode: Mode) | WasRead(state: RobotState) | Wrote(sent: Sent)

  const MAX_START_INTERFACES := 45

  // One callback of the controller manager, or a controller setting its command.
  datatype Callback =
    | Activate(reading: Reading) | Deactivate | ReadOnce(reading: Reading) | WriteOnce(finite: bool, accepted: bool)
    | Prepare(start: seq<string>, stop: seq<string>) | Switch(first: Attempt, recovers: bool, second: Attempt)
    | Set(mode: Mode, command: seq<real>, elbow: seq<real>)

  // The command interfaces: type and size, in the order of command_interfaces_info_.
  datatype Kind = EffortKind | VelocityKind | PositionKind | ElbowKind | CartesianVelocityKind | CartesianPoseKind

  const KINDS: seq<Kind> := [EffortKind, VelocityKind, PositionKind, ElbowKind, CartesianVelocityKind,
                             CartesianPoseKind]

  function TypeName(k: Kind): string {
    match k
    case EffortKind => "effort"
    case VelocityKind => "velocity"
    case PositionKind => "position"
    case ElbowKind => "elbow_command"
    case CartesianVelocityKind => "cartesian_velocity"
    case CartesianPoseKind => "cartesian_pose_command"
  }

  // The names of the interfaces, in particular those of the joints in ROS.
  lemma NameTellsKind(k: Kind)
    ensures TypeName(k) == "effort" <==> k == EffortKind
    ensures TypeName(k) == "velocity" <==> k == VelocityKind
    ensures TypeName(k) == "position" <==> k == PositionKind
    ensures TypeName(k) == "elbow_command" <==> k == ElbowKind
    ensures TypeName(k) == "cartesian_velocity" <==> k == CartesianVelocityKind
    ensures TypeName(k) == "cartesian_pose_command" <==> k == CartesianPoseKind
  {
    assert TypeName(EffortKind) == "effort" && TypeName(VelocityKind) == "velocity";
    assert TypeName(PositionKind) == "position" && TypeName(ElbowKind) == "elbow_command";
    assert TypeName(CartesianVelocityKind) == "cartesian_velocity";
    assert TypeName(CartesianPoseKind) == "cartesian_pose_command";
    forall l | TypeName(l) == TypeName(k) ensures l == k {
      NamesDiffer(k, l);
    }
  }

  function Size(k: Kind): nat {
    match k
    case ElbowKind => MAX_ELBOW_COMMANDS
    case CartesianVelocityKind => MAX_CARTESIAN_VELOCITIES
    case CartesianPoseKind => MAX_CARTESIAN_POSE_COMMANDS
    case _ => MAX_JOINTS
  }

  // ----- Claims -----

  function AfterSlash(s: string): Option<string> {
    if s == "" then None else if s[0] == '/' then Some(s[1..]) else AfterSlash(s[1..])
  }

  // The name of an interface is split at its first slash.
  lemma {:induction false} NameAfterSlash(prefix: string, name: string)
    requires '/' !in prefix
    ensures AfterSlash(prefix + "/" + name) == Some(name) && AfterSlash(prefix) == None
  {
    var whole := prefix + "/" + name;
    if prefix == "" {
      assert whole[1..] == name;
    } else {
      assert whole[0] == prefix[0] && whole[1..] == prefix[1..] + "/" + name;
      NameAfterSlash(prefix[1..], name);
    }
  }

  predicate IsOfKind(exported: set<string>, name: string, k: Kind) {
    name in exported && AfterSlash(name).Some? && AfterSlash(name).value != "" && AfterSlash(name).value == TypeName(k)
  }

  function CountOf(exported: set<string>, names: seq<string>, k: Kind): nat {
    if names == [] then 0
    else CountOf(exported, names[..|names| - 1], k) + if IsOfKind(exported, names[|names| - 1], k) then 1 else 0
  }

  function Places(exported: set<string>, names: seq<string>, k: Kind): set<int> {
    set i | 0 <= i < |names| && IsOfKind(exported, names[i], k)
  }

  // It counts the places at which the names hold interfaces of the kind.
  lemma {:induction false} CountIsNumberOfPlaces(exported: set<string>, names: seq<string>, k: Kind)
    ensures CountOf(exported, names, k) == |Places(exported, names, k)|
  {
    hide IsOfKind, Places;
    assert Places(exported, [], k) == {} by { NoPlaces(exported, k); }
    if names != [] {
      var n := |names| - 1;
      CountIsNumberOfPlaces(exported, names[..n], k);
      LastPlace(exported, names, k);
    }
  }

  lemma NoPlaces(exported: set<string>, k: Kind)
    ensures Places(exported, [], k) == {}
  {
  }

  lemma LastPlace(exported: set<string>, names: seq<string>, k: Kind)
    requires names != []
    ensures var n := |names| - 1;
            var before := Places(exported, names[..n], k);
            && n !in before
            && Places(exported, names, k) == before + if IsOfKind(exported, names[n], k) then {n} else {}
  {
    hide IsOfKind;
    assert forall i :: 0 <= i < |names| - 1 ==> names[..|names| - 1][i] == names[i];
  }

  // The claim of one kind after a switch request; none if only part of it is requested.
  function Reclaimed(claimed: bool, stops: nat, starts: nat, size: nat): Option<bool> {
    if (stops != size && stops != 0) || (starts != size && starts != 0) then None
    else Some(if starts == size then true else if stops == size then false else claimed)
  }

  // A request for one kind is granted exactly if it is for all of its interfaces or none:
  // seven joints, two elbow values, six velocities or sixteen entries of a pose.
  lemma GrantedExactlyIfWhole(k: Kind, claimed: bool, stops: nat, starts: nat)
    ensures var whole := if k in {EffortKind, VelocityKind, PositionKind} then 7 else if k == ElbowKind then 2
                         else if k == CartesianVelocityKind then 6 else 16;
            var r := Reclaimed(claimed, stops, starts, Size(k));
            && (r.Some? <==> stops in {0, whole} && starts in {0, whole})
            && (r == Some(true) <==> (starts == whole && stops in {0, whole}) || (claimed && starts == stops == 0))
  {
  }

  // Different kinds never count the same interface.
  lemma OneKindPerName(exported: set<string>, name: string, k: Kind, l: Kind)
    requires IsOfKind(exported, name, k) && IsOfKind(exported, name, l)
    ensures k == l
  {
    assert TypeName(k) == TypeName(l);
    NamesDiffer(k, l);
  }

  lemma NamesDiffer(k: Kind, l: Kind)
    requires TypeName(k) == TypeName(l)
    ensures k == l
  {
    assert |TypeName(k)| == |TypeName(l)|;
    assert TypeName(k)[0] == TypeName(l)[0];
    assert "position"[0] == 'p' && "velocity"[0] == 'v';
  }

  // ----- Modes -----

  function DesiredMode(claims: set<Kind>): Mode {
    if EffortKind in claims then Effort
    else if VelocityKind in claims then JointVelocity
    else if PositionKind in claims then JointPosition
    else if CartesianPoseKind in claims && ElbowKind in claims then CartesianPoseWithElbow
    else if CartesianPoseKind in claims then CartesianPose
    else if CartesianVelocityKind in claims && ElbowKind in claims then CartesianVelocityWithElbow
    else if CartesianVelocityKind in claims then CartesianVelocity
    else NoMode
  }

  // The kind of interface that a mode is commanded through.
  function KindOf(m: Mode): Kind
    requires m != NoMode
  {
    match m
    case Effort => EffortKind
    case JointVelocity => VelocityKind
    case JointPosition => PositionKind
    case CartesianVelocity | CartesianVelocityWithElbow => CartesianVelocityKind
    case CartesianPose | CartesianPoseWithElbow => CartesianPoseKind
  }

  // The desired mode serves a claimed interface, and the elbow exactly if it is
  // claimed with a Cartesian one; there is none only if at most the elbow is claimed.
  lemma DesiredModeServesClaims(claims: set<Kind>)
    ensures DesiredMode(claims) == NoMode <==> claims <= {ElbowKind}
    ensures DesiredMode(claims) != NoMode ==>
              var m := DesiredMode(claims);
              && KindOf(m) in claims
              && (HasElbow(m) <==> ElbowKind in claims && KindOf(m) in {CartesianVelocityKind, CartesianPoseKind})
    ensures forall k :: claims - {ElbowKind} == {k} ==>
              DesiredMode(claims) != NoMode && KindOf(DesiredMode(claims)) == k
  {
    forall k | k in claims ensures k in KINDS {
      AllKinds(k);
    }
    if claims <= {ElbowKind} {
      assert forall k :: k in claims ==> k == ElbowKind;
    }
    forall k | claims - {ElbowKind} == {k} ensures DesiredMode(claims) != NoMode && KindOf(DesiredMode(claims)) == k {
      assert k in claims && k != ElbowKind;
      assert forall l :: l in claims && l != ElbowKind ==> l in claims - {ElbowKind};
    }
  }

  predicate HasElbow(m: Mode) { m in {CartesianVelocityWithElbow, CartesianPoseWithElbow} }

  function ControlOf(m: Mode): Control
    requires m != NoMode
  {
    match m
    case Effort => TorqueControl
    case JointVelocity => JointVelocityControl
    case JointPosition => JointPositionControl
    case CartesianVelocity | CartesianVelocityWithElbow => CartesianVelocityControl
    case CartesianPose | CartesianPoseWithElbow => CartesianPoseControl
  }

  // The modes without positions start with commands of zero.
  predicate StartsAtZero(m: Mode, efforts: seq<real>, velocities: seq<real>, cartesianVelocities: seq<real>) {
    && (m == Effort ==> efforts == Zeros(MAX_JOINTS))
    && (m == JointVelocity ==> velocities == Zeros(MAX_JOINTS))
    && (m in {CartesianVelocity, CartesianVelocityWithElbow} ==>
          cartesianVelocities == Zeros(MAX_CARTESIAN_VELOCITIES))
  }

  // The modes whose first command has to come from a measured state.
  predicate NeedsSeed(m: Mode) {
    m in {JointPosition, CartesianPose, CartesianPoseWithElbow, CartesianVelocityWithElbow}
  }

  // The controls whose commands are positions, poses or come with an elbow position.
  predicate IsPositional(s: Sent) { s.control in {JointPositionControl, CartesianPoseControl} || s.elbow.Some? }

  predicate ReadSinceSwitch(h: seq<Event>) {
    h != [] && (h[|h| - 1].WasRead? || (!h[|h| - 1].Switched? && ReadSinceSwitch(h[..|h| - 1])))
  }

  predicate WritesAreSeeded(h: seq<Event>) {
    h == [] || (WritesAreSeeded(h[..|h| - 1])
                && (h[|h| - 1].Wrote? && IsPositional(h[|h| - 1].sent) ==> ReadSinceSwitch(h[..|h| - 1])))
  }

  // Spelled out: before every positional command, some state was read after the last switch.
  lemma {:induction false} SeededMeansRead(h: seq<Event>, i: nat)
    requires WritesAreSeeded(h) && i < |h| && h[i].Wrote? && IsPositional(h[i].sent)
    ensures exists j :: 0 <= j < i && h[j].WasRead? && forall k :: j < k < i ==> !h[k].Switched?
  {
    if i == |h| - 1 {
      LastRead(h[..i]);
      var j :| 0 <= j < i && h[..i][j].WasRead? && forall k :: j < k < i ==> !h[..i][k].Switched?;
      assert h[j].WasRead? && forall k :: j < k < i ==> !h[k].Switched? by {
        assert forall k :: 0 <= k < i ==> h[k] == h[..i][k];
      }
    } else {
      var g := h[..|h| - 1];
      SeededMeansRead(g, i);
      var j :| 0 <= j < i && g[j].WasRead? && forall k :: j < k < i ==> !g[k].Switched?;
      assert h[j].WasRead? && forall k :: j < k < i ==> !h[k].Switched? by {
        assert forall k :: 0 <= k < |g| ==> h[k] == g[k];
      }
    }
  }

  lemma {:induction false} LastRead(h: seq<Event>)
    requires ReadSinceSwitch(h)
    ensures exists j :: 0 <= j < |h| && h[j].WasRead? && forall k :: j < k < |h| ==> !h[k].Switched?
  {
    var n := |h| - 1;
    if !h[n].WasRead? {
      LastRead(h[..n]);
      var j :| 0 <= j < n && h[..n][j].WasRead? && forall k :: j < k < n ==> !h[..n][k].Switched?;
      assert h[j].WasRead? && forall k :: j < k < |h| ==> !h[k].Switched? by {
        assert forall k :: 0 <= k < n ==> h[k] == h[..n][k];
      }
    } else {
      assert h[n].WasRead?;
    }
  }

  // What serves the claims, spelled out: the mode, the control of the robot, and its flags.
  ghost predicate Serves(claims: set<Kind>, mode: Mode, control: Option<Control>, flags: seq<bool>) {
    var elbow := ElbowKind in claims;
    if EffortKind in claims then
      mode == Effort && control == Some(TorqueControl) && flags == [true, false, false, false, false]
    else if VelocityKind in claims then
      mode == JointVelocity && control == Some(JointVelocityControl) && flags == [false, true, false, false, false]
    else if PositionKind in claims then
      mode == JointPosition && control == Some(JointPositionControl) && flags == [false, false, true, false, false]
    else if CartesianPoseKind in claims then
      && mode == (if elbow then CartesianPoseWithElbow else CartesianPose)
      && control == Some(CartesianPoseControl) && flags == [false, false, false, false, true]
    else if CartesianVelocityKind in claims then
      && mode == (if elbow then CartesianVelocityWithElbow else CartesianVelocity)
      && control == Some(CartesianVelocityControl) && flags == [false, false, false, true, false]
    else mode == NoMode && control == None && flags == [false, false, false, false, false]
  }

  // The desired mode with its control serves the claims.
  lemma DesiredModeServes(claims: set<Kind>, mode: Mode, control: Option<Control>, flags: seq<bool>)
    requires mode == DesiredMode(claims)
    requires control == if mode == NoMode then None else Some(ControlOf(mode))
    requires flags == [control == Some(TorqueControl), control == Some(JointVelocityControl),
                       control == Some(JointPositionControl), control == Some(CartesianVelocityControl),
                       control == Some(CartesianPoseControl)]
    ensures Serves(claims, mode, control, flags)
  {
  }

  class FrankaHardwareInterface {
    const robot: Robot
    const exported: set<string>
    var activeMode: Mode
    var needsInitialCommand: bool
    var claims: set<Kind>
    var effortCommands: seq<real>
    var positionCommands: seq<real>
    var velocityCommands: seq<real>
    var cartesianVelocities: seq<real>
    var poseCommands: seq<real>
    var elbowCommand: seq<real>
    ghost var history: seq<Event>

    ghost predicate Valid()
      reads this, robot
    {
      && robot.Valid()
      && |effortCommands| == |positionCommands| == |velocityCommands| == MAX_JOINTS
      && |cartesianVelocities| == MAX_CARTESIAN_VELOCITIES
      && |poseCommands| == MAX_CARTESIAN_POSE_COMMANDS && |elbowCommand| == MAX_ELBOW_COMMANDS
      && (activeMode != NoMode && robot.activeControl.Some? ==> robot.activeControl == Some(ControlOf(activeMode)))
      && (activeMode == NoMode ==> needsInitialCommand)
      && (NeedsSeed(activeMode) && !needsInitialCommand ==> ReadSinceSwitch(history))
      && WritesAreSeeded(history)
    }

    constructor (robot: Robot, exported: set<string>)
      requires robot.Valid() && robot.activeControl == None
      ensures Valid() && this.robot == robot && this.exported == exported && activeMode == NoMode && history == []
              && claims == {}
    {
      this.robot, this.exported, activeMode, needsInitialCommand := robot, exported, NoMode, true;
      claims := {};
      effortCommands, positionCommands, velocityCommands := seq(MAX_JOINTS, _ => 0.0), seq(MAX_JOINTS, _ => 0.0),
          seq(MAX_JOINTS, _ => 0.0);
      cartesianVelocities, elbowCommand := seq(MAX_CARTESIAN_VELOCITIES, _ => 0.0), seq(MAX_ELBOW_COMMANDS, _ => 0.0);
      poseCommands := seq(MAX_CARTESIAN_POSE_COMMANDS, i => if i % 5 == 0 then 1.0 else 0.0);
      history := [];
    }

    method OnActivate(reading: Reading) returns (r: ReturnType)
      requires Valid() && ProperReading(reading)
      modifies this, robot
      ensures Valid() && activeMode == NoMode && claims == old(claims) && robot.sent == old(robot.sent)
      ensures needsInitialCommand && r == if reading.ReadOtherError? then Escaped else Ok
      ensures history == old(history) + if reading.ReadState? then [WasRead(reading.state)] else []
      ensures robot.activeControl == if reading.ReadControlError? then None else old(robot.activeControl)
    {
      activeMode, needsInitialCommand := NoMode, true;
      var first := Read(reading);
      // Of the first read only its exceptions matter.
      r := if first == Escaped then Escaped else Ok;
    }

    method OnDeactivate() returns (r: ReturnType)
      requires Valid()
      modifies this`activeMode, this`needsInitialCommand, robot
      ensures Valid() && activeMode == NoMode && robot.activeControl == None && robot.sent == old(robot.sent)
    {
      robot.StopRobot();
      activeMode, needsInitialCommand := NoMode, true;
      r := Ok;
    }

    // Takes the first command of a positional mode from the measured state.
    method InitializePositionCommands(s: RobotState)
      requires ProperReading(ReadState(s))
      modifies this`positionCommands, this`poseCommands, this`elbowCommand, this`needsInitialCommand
      ensures old(needsInitialCommand) && activeMode == JointPosition ==> positionCommands == s.q
      ensures old(needsInitialCommand) && activeMode in {CartesianPose, CartesianPoseWithElbow} ==>
                poseCommands == s.pose
      ensures old(needsInitialCommand) && activeMode in {CartesianPoseWithElbow, CartesianVelocityWithElbow} ==>
                elbowCommand == s.elbow
      ensures positionCommands in {s.q, old(positionCommands)}
      ensures poseCommands in {s.pose, old(poseCommands)}
      ensures elbowCommand in {s.elbow, old(elbowCommand)}
      ensures !old(needsInitialCommand) ==>
                positionCommands == old(positionCommands) && poseCommands == old(poseCommands)
                    && elbowCommand == old(elbowCommand)
      ensures needsInitialCommand == (old(needsInitialCommand) && activeMode == NoMode)
    {
      if !needsInitialCommand || activeMode == NoMode {
        return;
      }
      match activeMode {
        case JointPosition => positionCommands := s.q;
        case CartesianPose => poseCommands := s.pose;
        case CartesianPoseWithElbow =>
          poseCommands := s.pose;
          elbowCommand := s.elbow;
        case CartesianVelocityWithElbow => elbowCommand := s.elbow;
        case _ =>
      }
      needsInitialCommand := false;
    }

    method Read(reading: Reading) returns (r: ReturnType)
      requires Valid() && ProperReading(reading)
      modifies this, robot
      ensures Valid() && activeMode == old(activeMode) && claims == old(claims) && robot.sent == old(robot.sent)
      ensures reading.ReadControlError? ==> r == Error && robot.activeControl == None && history == old(history)
      ensures reading.ReadOtherError? ==> r == Escaped && history == old(history)
      ensures !reading.ReadControlError? ==> robot.activeControl == old(robot.activeControl)
      ensures reading.ReadState? ==> r == Ok && history == old(history) + [WasRead(reading.state)]
                                     && needsInitialCommand == (old(needsInitialCommand) && activeMode == NoMode)
      ensures reading.ReadState? && old(needsInitialCommand) ==>
                (activeMode == JointPosition ==> positionCommands == reading.state.q)
                && (activeMode in {CartesianPose, CartesianPoseWithElbow} ==> poseCommands == reading.state.pose)
                && (activeMode in {CartesianPoseWithElbow, CartesianVelocityWithElbow} ==>
                      elbowCommand == reading.state.elbow)
    {
      hide WritesAreSeeded, ReadSinceSwitch;
      match reading
      case ReadControlError =>
        robot.StopRobot();
        return Error;
      case ReadOtherError =>
        return Escaped;
      case ReadState(s) =>
        InitializePositionCommands(s);
        ReadRecorded(history, s);
        history := history + [WasRead(s)];
        return Ok;
    }

    // The command vector of a mode.
    function CommandOf(m: Mode): seq<real>
      reads this
      requires m != NoMode
    {
      match m
      case Effort => effortCommands
      case JointVelocity => velocityCommands
      case JointPosition => positionCommands
      case CartesianVelocity | CartesianVelocityWithElbow => cartesianVelocities
      case CartesianPose | CartesianPoseWithElbow => poseCommands
    }

    function ElbowOf(m: Mode): Option<seq<real>>
      reads this
    {
      if HasElbow(m) then Some(elbowCommand) else None
    }

    // What a write hands to the active control, if it gets that far.
    function Outgoing(): Sent
      reads this
      requires activeMode != NoMode
    {
      Sent(ControlOf(activeMode), CommandOf(activeMode), ElbowOf(activeMode))
    }

    // The exceptions for unknown sizes cannot occur; an exception escapes exactly if
    // libfranka refuses the values of the command. What is sent is the command of the
    // active mode, to its control, and only once seeded.
    method Write(finite: bool, accepted: bool) returns (r: ReturnType, ghost w: WriteResult)
      requires Valid()
      modifies robot`sent, this`history
      ensures Valid()
      ensures w != UnknownSize
      ensures r == Error <==> !finite
      ensures r == Escaped
              <==> finite && !needsInitialCommand && robot.activeControl.Some? && !ValidValues(robot.sqrt, Outgoing())
      ensures if finite && !needsInitialCommand && robot.activeControl.Some?
              then robot.sent == old(robot.sent) + [Outgoing()] && history == old(history) + [Wrote(Outgoing())]
              else robot.sent == old(robot.sent) && history == old(history)
      ensures robot.sent != old(robot.sent) ==>
                robot.sent == old(robot.sent) + [
                  match activeMode
                  case Effort => Sent(TorqueControl, effortCommands, None)
                  case JointVelocity => Sent(JointVelocityControl, velocityCommands, None)
                  case JointPosition => Sent(JointPositionControl, positionCommands, None)
                  case CartesianVelocity => Sent(CartesianVelocityControl, cartesianVelocities, None)
                  case CartesianVelocityWithElbow =>
                    Sent(CartesianVelocityControl, cartesianVelocities, Some(elbowCommand))
                  case CartesianPose => Sent(CartesianPoseControl, poseCommands, None)
                  case _ => Sent(CartesianPoseControl, poseCommands, Some(elbowCommand))]
    {
      w := Written;
      if !finite {
        return Error, w;
      }
      if needsInitialCommand {
        return Ok, w;
      }
      hide WritesAreSeeded, ReadSinceSwitch, CountOf, ValidValues;
      var result := Dispatch(accepted);
      if robot.activeControl.Some? {
        WriteRecorded(history, Outgoing());
        history := history + [Wrote(Outgoing())];
      }
      // A std::runtime_error is caught and reported; any other exception escapes.
      return if result == UnknownSize || result == InvalidValues then Escaped else Ok, result;
    }

    // The switch of write over the modes.
    method Dispatch(accepted: bool) returns (r: WriteResult)
      requires Valid() && activeMode != NoMode
      modifies robot`sent
      ensures robot.activeControl == None ==> r == RuntimeError && robot.sent == old(robot.sent)
      ensures robot.activeControl.Some? ==>
                r == Answer(robot.sqrt, Outgoing(), accepted) && robot.sent == old(robot.sent) + [Outgoing()]
    {
      hide WritesAreSeeded, ReadSinceSwitch, Answer;
      r := RuntimeError;
      match activeMode {
        case Effort => r := robot.WriteOnce(effortCommands, accepted);
        case JointVelocity => r := robot.WriteOnce(velocityCommands, accepted);
        case JointPosition => r := robot.WriteOnce(positionCommands, accepted);
        case CartesianVelocity => r := robot.WriteOnce(cartesianVelocities, accepted);
        case CartesianVelocityWithElbow => r := robot.WriteOnceWithElbow(cartesianVelocities, elbowCommand, accepted);
        case CartesianPose => r := robot.WriteOnce(poseCommands, accepted);
        case CartesianPoseWithElbow => r := robot.WriteOnceWithElbow(poseCommands, elbowCommand, accepted);
        case NoMode =>
      }
    }

    // A controller sets commands through the exported interfaces.
    method SetCommands(m: Mode, command: seq<real>, elbow: seq<real>)
      requires Valid() && m != NoMode && |command| == SizeFor(ControlOf(m)) && |elbow| == MAX_ELBOW_COMMANDS
      modifies this`effortCommands, this`positionCommands, this`velocityCommands, this`cartesianVelocities,
          this`poseCommands, this`elbowCommand
      ensures Valid() && CommandOf(m) == command && elbowCommand == elbow
      ensures effortCommands == if m == Effort then command else old(effortCommands)
      ensures velocityCommands == if m == JointVelocity then command else old(velocityCommands)
      ensures positionCommands == if m == JointPosition then command else old(positionCommands)
      ensures cartesianVelocities
              == if m in {CartesianVelocity, CartesianVelocityWithElbow} then command else old(cartesianVelocities)
      ensures poseCommands == if m in {CartesianPose, CartesianPoseWithElbow} then command else old(poseCommands)
    {
      match m {
        case Effort => effortCommands := command;
        case JointVelocity => velocityCommands := command;
        case JointPosition => positionCommands := command;
        case CartesianVelocity | CartesianVelocityWithElbow => cartesianVelocities := command;
        case CartesianPose | CartesianPoseWithElbow => poseCommands := command;
      }
      elbowCommand := elbow;
    }

    // Claims are only updated; a request for part of an interface throws, after the
    // claims of the interfaces before it were updated.
    method PrepareCommandModeSwitch(start: seq<string>, stop: seq<string>) returns (r: ReturnType)
      requires Valid()
      modifies this`claims
      ensures Valid()
      ensures |start| == MAX_START_INTERFACES ==> r == Error && claims == old(claims)
      ensures |start| != MAX_START_INTERFACES ==>
                (r == Ok <==> forall k: Kind :: Request(start, stop, k, old(claims)).Some?)
      ensures r == Ok ==> forall k: Kind :: Request(start, stop, k, old(claims)) == Some(k in claims)
      ensures r == Error <==> |start| == MAX_START_INTERFACES
      ensures r == Escaped ==> exists i :: 0 <= i < |KINDS| && UpdatedUpTo(start, stop, i, old(claims), claims)
    {
      if |start| == MAX_START_INTERFACES {
        return Error;
      }
      ghost var before := claims;
      hide CountOf, Valid;
      for i := 0 to |KINDS|
        invariant forall j :: 0 <= j < i ==> Request(start, stop, KINDS[j], before) == Some(KINDS[j] in claims)
        invariant forall j :: i <= j < |KINDS| ==> (KINDS[j] in claims <==> KINDS[j] in before)
      {
        var k := KINDS[i];
        var stops := CountInterfaces(stop, k);
        var starts := CountInterfaces(start, k);
        if stops == Size(k) {
          claims := claims - {k};
        } else if stops != 0 {
          assert UpdatedUpTo(start, stop, i, before, claims);
          return Escaped;
        }
        if starts == Size(k) {
          claims := claims + {k};
        } else if starts != 0 {
          assert UpdatedUpTo(start, stop, i, before, claims);
          return Escaped;
        }
      }
      forall k: Kind ensures Request(start, stop, k, before) == Some(k in claims) {
        AllKinds(k);
      }
      return Ok;
    }

    // The kinds before the one at which the request fails are updated, those after it are
    // not, and of that one a complete stop counts.
    ghost predicate UpdatedUpTo(start: seq<string>, stop: seq<string>, i: nat, before: set<Kind>, after: set<Kind>)
      requires i < |KINDS|
    {
      && Request(start, stop, KINDS[i], before) == None
      && (forall j :: 0 <= j < i ==> Request(start, stop, KINDS[j], before) == Some(KINDS[j] in after))
      && (forall j :: i < j < |KINDS| ==> (KINDS[j] in after <==> KINDS[j] in before))
      && (KINDS[i] in after <==> KINDS[i] in before && CountOf(exported, stop, KINDS[i]) != Size(KINDS[i]))
    }

    // What a request asks for one kind of interface, given the claims before it.
    function Request(start: seq<string>, stop: seq<string>, k: Kind, before: set<Kind>): Option<bool> {
      Reclaimed(k in before, CountOf(exported, stop, k), CountOf(exported, start, k), Size(k))
    }

    method CountInterfaces(names: seq<string>, k: Kind) returns (n: nat)
      ensures n == CountOf(exported, names, k)
    {
      n := 0;
      for i := 0 to |names|
        invariant n == CountOf(exported, names[..i], k)
      {
        assert names[..i + 1][..i] == names[..i];
        if IsOfKind(exported, names[i], k) {
          n := n + 1;
        }
      }
      assert names[..|names|] == names;
    }

    // Starts the control of the claimed mode, unless that mode is active already. A start
    // that throws leaves the interface without a mode, and the exception escapes.
    method PerformCommandModeSwitch(first: Attempt, recovers: bool, second: Attempt) returns (r: ReturnType)
      requires Valid()
      modifies this, robot
      ensures Valid() && claims == old(claims) && robot.sent == old(robot.sent)
      ensures r == Error <==> ElbowKind in claims && CartesianVelocityKind !in claims && CartesianPoseKind !in claims
      ensures r == Error || DesiredMode(claims) == old(activeMode) ==>
                activeMode == old(activeMode) && robot.activeControl == old(robot.activeControl)
                    && history == old(history)
      ensures r == Ok ==> activeMode == DesiredMode(claims)
      ensures r == Ok && activeMode != old(activeMode) ==>
                && history == old(history) + [Switched(activeMode)]
                && robot.activeControl == (if activeMode == NoMode then None else Some(ControlOf(activeMode)))
                && needsInitialCommand == (NeedsSeed(activeMode) || activeMode == NoMode)
                && StartsAtZero(activeMode, effortCommands, velocityCommands, cartesianVelocities)
      ensures r == Ok && activeMode != old(activeMode) ==>
                Serves(claims, activeMode, robot.activeControl, robot.Flags())
      ensures r == Escaped ==> activeMode == NoMode && robot.activeControl == None
      ensures r == Escaped
              <==> !(ElbowKind in claims && CartesianVelocityKind !in claims && CartesianPoseKind !in claims)
                   && DesiredMode(claims) !in {old(activeMode), NoMode} && !SucceedsInTwo(first, recovers, second)
    {
      hide WritesAreSeeded, ReadSinceSwitch, CountOf, DesiredMode, SucceedsInTwo, StartsAtZero, Serves, ControlOf,
           NeedsSeed, Robot.Flags;
      if ElbowKind in claims && !(CartesianVelocityKind in claims || CartesianPoseKind in claims) {
        return Error;
      }
      var desired := DesiredMode(claims);
      if desired == activeMode {
        return Ok;
      }
      activeMode, needsInitialCommand := NoMode, true;
      robot.StopRobot();
      var ok := StartMode(desired, first, recovers, second);
      if !ok {
        return Escaped;
      }
      activeMode := desired;
      SwitchRecorded(history, desired);
      history := history + [Switched(desired)];
      return Ok;
    }

    // The initialisation of a mode, its commands and its control.
    method StartMode(desired: Mode, first: Attempt, recovers: bool, second: Attempt) returns (ok: bool)
      requires Valid() && activeMode == NoMode && robot.activeControl == None
      modifies this`needsInitialCommand, this`effortCommands, this`velocityCommands, this`cartesianVelocities, robot
      ensures robot.Valid() && robot.sent == old(robot.sent)
      ensures |effortCommands| == |velocityCommands| == MAX_JOINTS && |cartesianVelocities| == MAX_CARTESIAN_VELOCITIES
      ensures ok == (desired == NoMode || SucceedsInTwo(first, recovers, second))
      ensures robot.activeControl == if ok && desired != NoMode then Some(ControlOf(desired)) else None
      ensures needsInitialCommand == (!ok || NeedsSeed(desired) || desired == NoMode)
      ensures StartsAtZero(desired, effortCommands, velocityCommands, cartesianVelocities)
      ensures ok && desired == DesiredMode(claims) ==> Serves(claims, desired, robot.activeControl, robot.Flags())
    {
      hide DesiredMode, Serves, WritesAreSeeded, ReadSinceSwitch;
      ok := true;
      match desired {
        case Effort =>
          effortCommands := Zeros(|effortCommands|);
          ok := robot.InitializeTorqueInterface(first, recovers, second);
          needsInitialCommand := !ok;
        case JointVelocity =>
          velocityCommands := Zeros(|velocityCommands|);
          ok := robot.InitializeJointVelocityInterface(first, recovers, second);
          needsInitialCommand := !ok;
        case JointPosition =>
          ok := robot.InitializeJointPositionInterface(first, recovers, second);
        case CartesianVelocity =>
          cartesianVelocities := Zeros(|cartesianVelocities|);
          ok := robot.InitializeCartesianVelocityInterface(first, recovers, second);
          needsInitialCommand := !ok;
        case CartesianVelocityWithElbow =>
          cartesianVelocities := Zeros(|cartesianVelocities|);
          ok := robot.InitializeCartesianVelocityInterface(first, recovers, second);
        case CartesianPose =>
          ok := robot.InitializeCartesianPoseInterface(first, recovers, second);
        case CartesianPoseWithElbow =>
          ok := robot.InitializeCartesianPoseInterface(first, recovers, second);
        case NoMode =>
      }
      if ok && desired == DesiredMode(claims) {
        DesiredModeServes(claims, desired, robot.activeControl, robot.Flags());
      }
    }

    // One callback. Readings and commands have the sizes of the arrays that hold them.
    method Perform(call: Callback) returns (r: ReturnType)
      requires Valid()
      modifies this, robot
      ensures Valid()
      ensures call.WriteOnce? ==>
                robot.sent == old(robot.sent) + (if call.finite && !old(needsInitialCommand)
                                                    && old(robot.activeControl).Some?
                                                 then [old(Outgoing())] else [])
      ensures !call.WriteOnce? ==> robot.sent == old(robot.sent)
      ensures call.Switch? && r == Ok ==> activeMode == DesiredMode(claims)
      ensures call.Switch? && r == Ok && activeMode != old(activeMode) ==>
                Serves(claims, activeMode, robot.activeControl, robot.Flags())
      ensures call.Prepare? && r == Ok ==>
                forall k: Kind :: Request(call.start, call.stop, k, old(claims)) == Some(k in claims)
      ensures !call.Prepare? ==> claims == old(claims)
      ensures call.ReadOnce? && call.reading.ReadState? && ProperReading(call.reading) ==>
                history == old(history) + [WasRead(call.reading.state)]
      ensures call.Activate? && ProperReading(call.reading) ==>
                activeMode == NoMode && r == if call.reading.ReadOtherError? then Escaped else Ok
      ensures call.Deactivate? ==> activeMode == NoMode && robot.activeControl == None
      ensures call.Set? && call.mode != NoMode && |call.command| == SizeFor(ControlOf(call.mode))
              && |call.elbow| == MAX_ELBOW_COMMANDS ==>
                CommandOf(call.mode) == call.command && elbowCommand == call.elbow
    {
      hide WritesAreSeeded, ReadSinceSwitch, CountOf, DesiredMode, Serves;
      r := Ok;
      match call {
        case Activate(reading) =>
          if ProperReading(reading) {
            r := OnActivate(reading);
          }
        case Deactivate => r := OnDeactivate();
        case ReadOnce(reading) =>
          if ProperReading(reading) {
            r := Read(reading);
          }
        case WriteOnce(finite, accepted) =>
          ghost var w;
          r, w := Write(finite, accepted);
        case Prepare(start, stop) => r := PrepareCommandModeSwitch(start, stop);
        case Switch(first, recovers, second) => r := PerformCommandModeSwitch(first, recovers, second);
        case Set(m, command, elbow) =>
          if m != NoMode && |command| == SizeFor(ControlOf(m)) && |elbow| == MAX_ELBOW_COMMANDS {
            SetCommands(m, command, elbow);
          }
      }
    }

    // Whatever the controller manager calls, in any order: the flags name the active
    // control, which is that of the active mode, and every positional command was seeded.
    method PerformAll(calls: seq<Callback>)
      requires Valid()
      modifies this, robot
      ensures Valid()
      ensures forall i :: 0 <= i < |history| && history[i].Wrote? && IsPositional(history[i].sent) ==>
                exists j :: 0 <= j < i && history[j].WasRead? && forall k :: j < k < i ==> !history[k].Switched?
      decreases |calls|
    {
      if calls == [] {
        forall i | 0 <= i < |history| && history[i].Wrote? && IsPositional(history[i].sent)
          ensures exists j :: 0 <= j < i && history[j].WasRead? && forall k :: j < k < i ==> !history[k].Switched?
        {
          SeededMeansRead(history, i);
        }
      } else {
        var r := Perform(calls[0]);
        PerformAll(calls[1..]);
      }
    }
  }

  // ----- Reachable witnesses -----

  const POSE_INTERFACE := "fr3/" + TypeName(CartesianPoseKind)

  lemma PoseInterfaceName()
    ensures AfterSlash(POSE_INTERFACE) == Some(TypeName(CartesianPoseKind))
  {
    hide TypeName;
    NameAfterSlash("fr3", TypeName(CartesianPoseKind));
    assert "fr3/" == "fr3" + "/";
  }

  lemma {:induction false} CountOfPose(n: nat, k: Kind)
    ensures CountOf({POSE_INTERFACE}, seq(n, _ => POSE_INTERFACE), k) == if k == CartesianPoseKind then n else 0
  {
    if n > 0 {
      CountOfPose(n - 1, k);
      PoseInterfaceName();
      assert seq(n, _ => POSE_INTERFACE)[..n - 1] == seq(n - 1, _ => POSE_INTERFACE);
      if IsOfKind({POSE_INTERFACE}, POSE_INTERFACE, k) {
        OneKindPerName({POSE_INTERFACE}, POSE_INTERFACE, k, CartesianPoseKind);
      }
    }
  }

  // A fresh interface whose pose interface was claimed, started and seeded.
  method PoseControlled(sqrt: real -> real, s: RobotState) returns (hw: FrankaHardwareInterface)
    requires ProperReading(ReadState(s))
    ensures fresh(hw) && fresh(hw.robot) && hw.Valid() && hw.robot.sqrt == sqrt && !hw.needsInitialCommand
    ensures hw.claims == {CartesianPoseKind} && hw.activeMode == CartesianPose
            && hw.robot.activeControl == Some(CartesianPoseControl)
    ensures hw.robot.sent == []
  {
    hide CountOf, WritesAreSeeded, ReadSinceSwitch;
    var robot := new Robot(sqrt);
    hw := new FrankaHardwareInterface(robot, {POSE_INTERFACE});
    var start := seq(MAX_CARTESIAN_POSE_COMMANDS, _ => POSE_INTERFACE);
    forall k: Kind
      ensures CountOf({POSE_INTERFACE}, start, k) == if k == CartesianPoseKind then MAX_CARTESIAN_POSE_COMMANDS else 0
      ensures CountOf({POSE_INTERFACE}, [], k) == 0
    {
      CountOfPose(MAX_CARTESIAN_POSE_COMMANDS, k);
      CountOfPose(0, k);
      assert seq(0, _ => POSE_INTERFACE) == [];
    }
    var r := hw.PrepareCommandModeSwitch(start, []);
    assert forall k: Kind :: k in hw.claims <==> k == CartesianPoseKind;
    assert hw.claims == {CartesianPoseKind};
    r := hw.PerformCommandModeSwitch(Starts, false, Starts);
    r := hw.Read(ReadState(s));
  }

  // Zeros as a pose make an exception escape from write.
  method InvalidPoseEscapes(sqrt: real -> real, s: RobotState) returns (hw: FrankaHardwareInterface, r: ReturnType)
    requires ProperReading(ReadState(s))
    ensures fresh(hw) && hw.Valid() && r == Escaped
  {
    hw := PoseControlled(sqrt, s);
    hw.SetCommands(CartesianPose, Zeros(MAX_CARTESIAN_POSE_COMMANDS), Zeros(MAX_ELBOW_COMMANDS));
    InvalidPoseAndElbow(sqrt, None, [], CartesianPoseControl);
    ghost var w;
    r, w := hw.Write(true, true);
  }

  // After a read failure the active mode has no control; requesting it again succeeds
  // and starts none, and a write is reported as done although nothing is sent.
  method RequestedAgainInVain(sqrt: real -> real, s: RobotState)
    returns (hw: FrankaHardwareInterface, switched: ReturnType, written: ReturnType)
    requires ProperReading(ReadState(s))
    ensures fresh(hw) && hw.Valid() && switched == Ok && written == Ok
    ensures hw.activeMode == CartesianPose && hw.robot.activeControl == None && hw.robot.sent == []
  {
    hw := PoseControlled(sqrt, s);
    var r := hw.Read(ReadControlError);
    switched := hw.PerformCommandModeSwitch(Starts, true, Starts);
    ghost var w;
    written, w := hw.Write(true, true);
  }

  lemma WriteRecorded(h: seq<Event>, sent: Sent)
    requires WritesAreSeeded(h) && (IsPositional(sent) ==> ReadSinceSwitch(h))
    ensures WritesAreSeeded(h + [Wrote(sent)]) && (ReadSinceSwitch(h) ==> ReadSinceSwitch(h + [Wrote(sent)]))
  {
    var g := h + [Wrote(sent)];
    assert g[..|g| - 1] == h;
  }

  lemma ReadRecorded(h: seq<Event>, s: RobotState)
    requires WritesAreSeeded(h)
    ensures WritesAreSeeded(h + [WasRead(s)]) && ReadSinceSwitch(h + [WasRead(s)])
  {
    var g := h + [WasRead(s)];
    assert g[..|g| - 1] == h;
  }

  lemma SwitchRecorded(h: seq<Event>, m: Mode)
    requires WritesAreSeeded(h)
    ensures WritesAreSeeded(h + [Switched(m)])
  {
    var g := h + [Switched(m)];
    assert g[..|g| - 1] == h;
  }

  lemma AllKinds(k: Kind)
    ensures exists j :: 0 <= j < |KINDS| && KINDS[j] == k
  {
    assert KINDS[0] == EffortKind && KINDS[1] == VelocityKind && KINDS[2] == PositionKind;
    assert KINDS[3] == ElbowKind && KINDS[4] == CartesianVelocityKind && KINDS[5] == CartesianPoseKind;
  }

  function Zeros(n: nat): seq<real> { seq(n, _ => 0.0) }

  predicate ProperReading(reading: Reading) {
    reading.ReadState? ==>
      |reading.state.q| == MAX_JOINTS && |reading.state.pose| == MAX_CARTESIAN_POSE_COMMANDS
          && |reading.state.elbow| == MAX_ELBOW_COMMANDS
  }
}
