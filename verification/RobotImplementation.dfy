/** The motion operations of libfranka/src/robot_impl.cpp against an arbitrary robot. */
module RobotImplementation {
  import opened Options
  import opened RobotMessages

  // The three ways sendRobotCommand refuses a command.
  datatype Rejection = NoMotionGenerator | NoExternalController | PartialCommand

  datatype Exception =
    | ControlError | CommandError | NetworkError | ProtocolError | InvalidArgument | InvalidOperation | CallbackError
    | Rejected(why: Rejection)

  datatype Outcome = Done | Threw(e: Exception)

  // What the robot was sent.
  datatype Event = MoveSent(generator: GeneratorMode, controller: ControllerMode) | StopSent
                 | CommandSent(id: nat, motion: bool, control: bool, finished: bool)

  predicate Runs(g: GeneratorMode) { g != IdleGenerator && g != NoGenerator }

  // The checks of sendRobotCommand for a command with or without its two parts.
  function Verdict(generator: GeneratorMode, controller: ControllerMode, motion: bool,
                   control: bool): Option<Rejection> {
    if !motion && !control then None
    else if motion && !Runs(generator) then Some(NoMotionGenerator)
    else if control && controller != ExternalController then Some(NoExternalController)
    else if Runs(generator) && controller == ExternalController && (!motion || !control) then Some(PartialCommand)
    else None
  }

  // The command has exactly the parts that the modes call for.
  predicate Matches(generator: GeneratorMode, controller: ControllerMode, motion: bool, control: bool) {
    motion == Runs(generator) && control == (controller == ExternalController)
  }

  // A non-empty command is accepted exactly if its parts are those of the modes.
  lemma AcceptedExactlyIfMatching(generator: GeneratorMode, controller: ControllerMode, motion: bool, control: bool)
    requires motion || control
    ensures Verdict(generator, controller, motion, control) == None <==> Matches(generator, controller, motion, control)
  {
  }

  // The reason for a refusal: first the motion, then the control part is checked against
  // the current move, and last whether one of both is missing.
  lemma RefusedExactlyFor(generator: GeneratorMode, controller: ControllerMode, motion: bool, control: bool)
    ensures var v, moves := Verdict(generator, controller, motion, control), generator !in {IdleGenerator, NoGenerator};
            && (v == Some(NoMotionGenerator) <==> motion && !moves)
            && (v == Some(NoExternalController) <==>
                  control && controller != ExternalController && (motion ==> moves))
            && (v == Some(PartialCommand) <==>
                  motion != control && moves && controller == ExternalController)
  {
  }

  function MoveVerdict(status: Status, generatorRuns: bool): Outcome {
    match status
    case Success => Done
    case MotionStarted => if generatorRuns then Threw(ProtocolError) else Done
    case UnknownStatus => Threw(ProtocolError)
    case _ => Threw(CommandError)
  }

  function StopVerdict(status: Status): Outcome {
    match status
    case Success => Done
    case NotPossibleRejected | Aborted | EmergencyAborted | ReflexAborted | RejectedDueToSafety => Threw(CommandError)
    case _ => Threw(ProtocolError)
  }

  // Commands of the given shape that announce the end of the motion.
  ghost predicate OnlyFinishing(events: seq<Event>, motion: bool, control: bool) {
    forall e :: e in events ==> e.CommandSent? && e.motion == motion && e.control == control && e.finished
  }

  predicate Broken(inputs: seq<Input>) { inputs != [] && inputs[0] == Closed }

  predicate BeginsWith(inputs: seq<Input>, first: seq<Input>) { first <= inputs }

  // The robot starts the motion, and the command connection breaks down.
  const STARTED_THEN_CLOSED := [Response(MotionStarted), Closed]

  // The robot starts the motion and confirms it, in the order startMotion asks.
  const STARTED_AND_CONFIRMED := [Response(MotionStarted), Response(MotionStarted)]

  // The connection is open, and one newer state is on the socket.
  predicate StateIsNext(inputs: seq<Input>, last: nat) {
    && |inputs| >= 3 && inputs[0] == inputs[2] == Nothing
    && inputs[1].Datagram? && inputs[1].state.messageId > last
  }

  lemma NextIsReceived(inputs: seq<Input>, last: nat)
    requires StateIsNext(inputs, last)
    ensures Receive(inputs[1..], last) == Received(inputs[1].state, inputs[3..])
  {
    var tail := inputs[1..];
    assert tail[1..] == inputs[2..] && tail[1..][1..] == inputs[3..];
    assert Drain(tail[1..], last, Some(tail[0].state)) == (Some(tail[0].state), inputs[3..]);
  }

  // What a blocking receive waits for: the first response, none if the connection is closed
  // before it; and the inputs after it.
  function FirstAnswer(inputs: seq<Input>): (Option<Status>, seq<Input>) {
    if inputs == [] then (None, [])
    else if inputs[0].Response? then (Some(inputs[0].status), inputs[1..])
    else if inputs[0] == Closed then (None, inputs[1..])
    else FirstAnswer(inputs[1..])
  }

  // The statuses that report a Move, or a StopMove, as failed.
  const MOVE_FAILED := {Preempted, PreemptedDueToSafety, RejectedDueToSafety, NotPossibleRejected,
                        StartAtSingularPoseRejected, InvalidArgumentRejected, ReflexAborted, EmergencyAborted,
                        InputErrorAborted, Aborted}
  const STOP_FAILED := {NotPossibleRejected, Aborted, EmergencyAborted, ReflexAborted, RejectedDueToSafety}

  predicate StillMoves(s: RobotState) { Runs(s.generator) || s.controller == ExternalController }

  // The robot sends any number of newer states in which it still moves, then one at
  // rest, and responds to its Move: the status of the response.
  function FinalStatus(inputs: seq<Input>, last: nat): Option<Status>
    decreases |inputs|
  {
    if !StateIsNext(inputs, last) then None
    else if StillMoves(inputs[1].state) then FinalStatus(inputs[3..], inputs[1].state.messageId)
    else if |inputs| > 3 && inputs[3].Response? then Some(inputs[3].status)
    else None
  }

  // A newer state is the next thing on the socket.
  predicate StateArrives(inputs: seq<Input>, last: nat) {
    |inputs| >= 2 && inputs[0].Datagram? && inputs[0].state.messageId > last && inputs[1] == Nothing
  }

  // The robot sends newer states until it is at rest: the inputs that follow.
  function AfterRest(inputs: seq<Input>, last: nat): Option<seq<Input>>
    decreases |inputs|
  {
    if !StateArrives(inputs, last) then None
    else if StillMoves(inputs[0].state) then AfterRest(inputs[2..], inputs[0].state.messageId)
    else Some(inputs[2..])
  }

  lemma ArrivalIsReceived(inputs: seq<Input>, last: nat)
    requires StateArrives(inputs, last)
    ensures Receive(inputs, last) == Received(inputs[0].state, inputs[2..])
  {
    assert inputs[1..][1..] == inputs[2..];
    assert Drain(inputs[1..], last, Some(inputs[0].state)) == (Some(inputs[0].state), inputs[2..]);
  }

  // What ends the waiting for a started motion: a response, with the generator running
  // already or not, or a state in the requested modes.
  datatype StartSign = Answered(status: Status, generatorRuns: bool) | ModesReached | Unclear

  function FirstSign(inputs: seq<Input>, last: nat, generator: GeneratorMode, controller: ControllerMode,
                     generatorRuns: bool): StartSign
    decreases |inputs|
  {
    if inputs == [] then Unclear
    else if inputs[0].Response? then Answered(inputs[0].status, generatorRuns)
    else if inputs[0] != Nothing || !StateIsNext(inputs[1..], last) then Unclear
    else
      var s := inputs[2].state;
      if s.generator == generator && s.controller == controller then ModesReached
      else FirstSign(inputs[4..], s.messageId, generator, controller, Runs(s.generator))
  }

  // How startMotion ends after the robot has accepted the Move: at once if it is in the
  // requested modes, and otherwise as the first sign of the motion tells.
  predicate StartedAsSigned(o: Outcome, inModes: bool, sign: StartSign) {
    if inModes then o == Done
    else match sign
      case ModesReached => o == Done
      case Answered(s, generatorRuns) =>
        && (o == Done <==> s == Success || (s == MotionStarted && !generatorRuns))
        && (o == Threw(ControlError) <==> s in MOVE_FAILED)
        && (o == Threw(ProtocolError) <==> s == UnknownStatus || (s == MotionStarted && generatorRuns))
      case Unclear => true
  }

  // How startMotion ends on an idle robot, by its first response to the Move: a failure
  // stays a command error.
  predicate StartsAs(o: Outcome, inputs: seq<Input>, last: nat, generator: GeneratorMode, controller: ControllerMode,
                     inModes: bool)
  {
    inputs != [] && inputs[0].Response? ==>
      var s := inputs[0].status;
      && (o == Threw(CommandError) <==> s in MOVE_FAILED)
      && (s == UnknownStatus ==> o == Threw(ProtocolError))
      && (s in {Success, MotionStarted} ==>
            StartedAsSigned(o, inModes, FirstSign(inputs[1..], last, generator, controller, false)))
  }

  // How finishMotion ends once the robot is at rest: the status of its response decides.
  predicate FinishesAs(o: Outcome, inputs: seq<Input>, last: nat) {
    FinalStatus(inputs, last).Some? ==> RespondedAs(o, FinalStatus(inputs, last).value)
  }

  predicate RespondedAs(o: Outcome, s: Status) {
    && (o == Done <==> s in {Success, MotionStarted})
    && (o == Threw(ControlError) <==> s in MOVE_FAILED)
    && (o == Threw(ProtocolError) <==> s == UnknownStatus)
  }

  // How cancelMotion ends: the response to the StopMove decides, and after a success the
  // robot comes to rest.
  predicate CancelsAs(o: Outcome, inputs: seq<Input>, last: nat) {
    |inputs| >= 2 && inputs[0] != Closed && inputs[1].Response? ==>
      var s, rest := inputs[1].status, AfterRest(inputs[2..], last);
      && (o == Threw(ControlError) <==> s in STOP_FAILED)
      && (s != Success && s !in STOP_FAILED ==> o == Threw(ProtocolError))
      && (s == Success && rest.Some? ==> o == if Broken(rest.value) then Threw(NetworkError) else Done)
  }

  class RobotImpl {
    var inputs: seq<Input>
    var robotMode: RobotMode
    var motionGeneratorMode: GeneratorMode
    var controllerMode: ControllerMode
    var currentMoveMotionGeneratorMode: GeneratorMode
    var currentMoveControllerMode: ControllerMode
    var messageId: nat
    ghost var log: seq<Event>

    // All behaviours of the robot are covered by the choice of its inputs.
    constructor (inputs: seq<Input>, first: RobotState, initialController: ControllerMode)
      ensures this.inputs == inputs && log == [] && messageId == first.messageId
      ensures currentMoveMotionGeneratorMode == IdleGenerator && currentMoveControllerMode == initialController
      ensures robotMode == first.robotMode && motionGeneratorMode == first.generator
              && controllerMode == first.controller
    {
      this.inputs, log := inputs, [];
      robotMode, motionGeneratorMode, controllerMode, messageId := first.robotMode, first.generator, first.controller,
          first.messageId;
      currentMoveMotionGeneratorMode, currentMoveControllerMode := IdleGenerator, initialController;
    }

    predicate MotionGeneratorRunning()
      reads this
    {
      Runs(motionGeneratorMode)
    }

    predicate ControllerRunning()
      reads this
    {
      controllerMode == ExternalController
    }

    // The robot is still, as far as the last state tells, and so the current move is none.
    predicate AtRest()
      reads this
    {
      && !MotionGeneratorRunning() && !ControllerRunning()
      && currentMoveMotionGeneratorMode == IdleGenerator && currentMoveControllerMode == OtherController
    }

    predicate InModes()
      reads this
    {
      motionGeneratorMode == currentMoveMotionGeneratorMode && controllerMode == currentMoveControllerMode
    }

    function NextSign(): StartSign
      reads this
    {
      FirstSign(inputs, messageId, currentMoveMotionGeneratorMode, currentMoveControllerMode, MotionGeneratorRunning())
    }

    function CurrentVerdict(motion: bool, control: bool): Option<Rejection>
      reads this
    {
      Verdict(currentMoveMotionGeneratorMode, currentMoveControllerMode, motion, control)
    }

    // The next input; silence once there is none left.
    method Next() returns (i: Input)
      modifies this`inputs
      ensures old(inputs) == [] ==> i == Nothing && inputs == []
      ensures old(inputs) != [] ==> i == old(inputs)[0] && inputs == old(inputs)[1..]
    {
      if inputs == [] {
        i := Nothing;
      } else {
        i, inputs := inputs[0], inputs[1..];
      }
    }

    method TcpThrowIfConnectionClosed() returns (o: Outcome)
      modifies this`inputs
      ensures o == if Broken(old(inputs)) then Threw(NetworkError) else Done
      ensures inputs == old(inputs)[if old(inputs) == [] then 0 else 1..]
      ensures |inputs| <= |old(inputs)| && (old(inputs) != [] ==> |inputs| < |old(inputs)|)
    {
      var i := Next();
      o := if i == Closed then Threw(NetworkError) else Done;
    }

    method TcpBlockingReceive() returns (o: Outcome, status: Status)
      modifies this`inputs
      ensures var (answer, rest) := FirstAnswer(old(inputs));
              && inputs == rest && o == (if answer.Some? then Done else Threw(NetworkError))
              && (answer.Some? ==> status == answer.value)
      ensures |inputs| <= |old(inputs)|
    {
      while inputs != []
        invariant |inputs| <= |old(inputs)| && FirstAnswer(inputs) == FirstAnswer(old(inputs))
        decreases |inputs|
      {
        var i := Next();
        if i.Response? {
          return Done, i.status;
        } else if i == Closed {
          return Threw(NetworkError), UnknownStatus;
        }
      }
      return Threw(NetworkError), UnknownStatus;
    }

    method TcpReceive() returns (o: Outcome, status: Option<Status>)
      modifies this`inputs
      ensures o == if Broken(old(inputs)) then Threw(NetworkError) else Done
      ensures status == if old(inputs) != [] && old(inputs)[0].Response? then Some(old(inputs)[0].status) else None
      ensures inputs == old(inputs)[if old(inputs) == [] then 0 else 1..]
    {
      var i := Next();
      if i == Closed {
        return Threw(NetworkError), None;
      }
      return Done, if i.Response? then Some(i.status) else None;
    }

    method UpdateState(s: RobotState)
      modifies this`robotMode, this`motionGeneratorMode, this`controllerMode, this`messageId
      ensures robotMode == s.robotMode && motionGeneratorMode == s.generator && controllerMode == s.controller
              && messageId == s.messageId
    {
      robotMode, motionGeneratorMode, controllerMode, messageId := s.robotMode, s.generator, s.controller, s.messageId;
    }

    // A state that was never set has arbitrary modes, which the fields then take over.
    method ReceiveRobotState() returns (o: Outcome, state: RobotState)
      modifies this`inputs, this`robotMode, this`motionGeneratorMode, this`controllerMode, this`messageId
      ensures var r := Receive(old(inputs), old(messageId));
              && inputs == r.rest && (o.Done? <==> !r.Failed?)
              && (r.Received? ==> state == r.state)
              && (r.Uninitialized? ==> state.messageId == old(messageId))
      ensures o == Done || o == Threw(NetworkError)
      ensures o.Done? ==> messageId == state.messageId && Later(old(messageId), messageId)
      ensures o.Done? ==>
                robotMode == state.robotMode && motionGeneratorMode == state.generator
                    && controllerMode == state.controller
      ensures o.Threw? ==> messageId == old(messageId) && robotMode == old(robotMode)
                           && motionGeneratorMode == old(motionGeneratorMode) && controllerMode == old(controllerMode)
      ensures |inputs| <= |old(inputs)| && (o.Done? ==> |inputs| < |old(inputs)|)
    {
      ReceivedIsNewer(inputs, messageId);
      var latest: RobotState := *;
      latest := latest.(messageId := messageId);
      var lastMessageId := messageId % ID_LIMIT;
      state := latest;
      if inputs == [] {
        return Threw(NetworkError), state;
      }
      ghost var start, best := inputs, None;
      while inputs != [] && inputs[0].Datagram?
        invariant Drain(start, messageId, None) == Drain(inputs, messageId, best)
        invariant latest.messageId == Newest(messageId, best) && (best.Some? ==> latest == best.value)
        decreases |inputs|
        modifies this`inputs
      {
        var s := inputs[0].state;
        if s.messageId > latest.messageId {
          latest, best := s, Some(s);
        }
        inputs := inputs[1..];
      }
      if inputs != [] {
        inputs := inputs[1..];
      }
      assert Drain(start, messageId, None) == (best, inputs);
      DrainIsMaximum(start, messageId, None);
      while latest.messageId == lastMessageId
        invariant latest.messageId == lastMessageId ==>
                    best.None? && messageId == lastMessageId && Drain(start, messageId, None).0.None?
                    && Await(Drain(start, messageId, None).1, messageId) == Await(inputs, messageId)
        invariant latest.messageId != lastMessageId ==>
                    Receive(start, messageId) == (if best.Some? then Received(latest, inputs)
                                                  else Uninitialized(inputs))
        invariant best.None? ==> latest.messageId == messageId
        decreases if latest.messageId == lastMessageId then 1 else 0, |inputs|
        modifies this`inputs
      {
        if inputs == [] {
          return Threw(NetworkError), state;
        }
        var i := Next();
        if !i.Datagram? {
          return Threw(NetworkError), state;
        }
        if i.state.messageId > latest.messageId {
          latest, best := i.state, Some(i.state);
        }
      }
      state := latest;
      UpdateState(state);
      o := Done;
    }

    // Sends the command, unless its parts do not fit the current move.
    method SendRobotCommand(motion: bool, control: bool, finished: bool) returns (o: Outcome)
      modifies this`log
      ensures var v := CurrentVerdict(motion, control);
              && o == (if v.Some? then Threw(Rejected(v.value)) else Done)
              && log == old(log) + (if o == Done && (motion || control)
                                    then [CommandSent(messageId, motion, control, finished)] else [])
    {
      if !motion && !control {
        return Done;
      }
      if motion {
        if currentMoveMotionGeneratorMode == IdleGenerator || currentMoveMotionGeneratorMode == NoGenerator {
          return Threw(Rejected(NoMotionGenerator));
        }
      }
      if control {
        if currentMoveControllerMode != ExternalController {
          return Threw(Rejected(NoExternalController));
        }
      }
      if currentMoveMotionGeneratorMode != IdleGenerator && currentMoveMotionGeneratorMode != NoGenerator
         && currentMoveControllerMode == ExternalController && (!motion || !control) {
        return Threw(Rejected(PartialCommand));
      }
      log := log + [CommandSent(messageId, motion, control, finished)];
      return Done;
    }

    method UpdateMotion(motion: bool, control: bool, finished: bool) returns (o: Outcome, state: RobotState)
      modifies this`inputs, this`robotMode, this`motionGeneratorMode, this`controllerMode, this`messageId, this`log
      ensures messageId >= old(messageId)
      ensures o.Done? && (motion || control) ==>
                log == old(log) + [CommandSent(old(messageId), motion, control, finished)]
      ensures log == old(log) || log == old(log) + [CommandSent(old(messageId), motion, control, finished)]
      ensures o.Done? ==> messageId == state.messageId && Later(old(messageId), messageId)
      ensures o.Done? ==>
                robotMode == state.robotMode && motionGeneratorMode == state.generator
                    && controllerMode == state.controller
      ensures o.Threw? ==> o.e == NetworkError || (o.e.Rejected? && CurrentVerdict(motion, control) == Some(o.e.why))
      ensures StateIsNext(old(inputs), old(messageId)) && CurrentVerdict(motion, control) == None ==>
                o.Done? && state == old(inputs)[1].state && inputs == old(inputs)[3..]
      ensures |inputs| <= |old(inputs)| && (o.Done? ==> |inputs| < |old(inputs)|)
    {
      state := RobotState(messageId, robotMode, motionGeneratorMode, controllerMode);
      o := TcpThrowIfConnectionClosed();
      if o.Threw? {
        return;
      }
      o := SendRobotCommand(motion, control, finished);
      if o.Threw? {
        return;
      }
      if StateIsNext(old(inputs), messageId) {
        NextIsReceived(old(inputs), messageId);
      }
      o, state := ReceiveRobotState();
    }

    // Returns normally only while the robot moves in the modes of the current move.
    method ThrowOnMotionError(state: RobotState) returns (o: Outcome)
      modifies this`inputs
      ensures o.Done? <==> state.robotMode == MoveMode && motionGeneratorMode == currentMoveMotionGeneratorMode
                           && controllerMode == currentMoveControllerMode
      ensures o.Threw? ==> o.e in {NetworkError, ProtocolError, ControlError}
      ensures o.Threw? && old(inputs) != [] && old(inputs)[0].Response? ==>
                o == Threw(if old(inputs)[0].status in MOVE_FAILED then ControlError else ProtocolError)
      ensures |inputs| <= |old(inputs)| && (o.Done? ==> inputs == old(inputs))
    {
      if state.robotMode != MoveMode || motionGeneratorMode != currentMoveMotionGeneratorMode
         || controllerMode != currentMoveControllerMode
      {
        var status;
        o, status := TcpBlockingReceive();
        if o.Threw? {
          return;
        }
        var v := MoveVerdict(status, MotionGeneratorRunning());
        if v == Threw(CommandError) {
          return Threw(ControlError);
        } else if v.Threw? {
          return v;
        }
        return Threw(ProtocolError);
      }
      return Done;
    }

    method ReadOnce() returns (o: Outcome, state: RobotState)
      modifies this`inputs, this`robotMode, this`motionGeneratorMode, this`controllerMode, this`messageId
      ensures o == Done || o == Threw(NetworkError)
      ensures var r := Receive(old(inputs), old(messageId));
              inputs == r.rest && (o.Done? <==> !r.Failed?) && (r.Received? ==> state == r.state)
      ensures messageId >= old(messageId)
              && (o.Done? ==> messageId == state.messageId && Later(old(messageId), messageId))
      ensures o.Done? ==>
                robotMode == state.robotMode && motionGeneratorMode == state.generator
                    && controllerMode == state.controller
      ensures |inputs| <= |old(inputs)|
    {
      o, state := ReceiveRobotState();
    }

    // One command: valid says that its values pass the checks of createMotionCommand
    // and createControllerCommand.
    method WriteOnce(motion: bool, control: bool, valid: bool) returns (o: Outcome)
      modifies this`inputs, this`log
      ensures o == Threw(InvalidArgument) <==> !valid
      ensures o.Threw? ==> o.e in {InvalidArgument, NetworkError} || o.e.Rejected?
      ensures o.Threw? && o.e.Rejected? ==> CurrentVerdict(motion, control) == Some(o.e.why)
      ensures valid && CurrentVerdict(motion, control) == None ==>
                o == if Broken(old(inputs)) then Threw(NetworkError) else Done
      ensures log == old(log) + (if o == Done && (motion || control)
                                 then [CommandSent(messageId, motion, control, false)] else [])
      ensures |inputs| <= |old(inputs)|
    {
      if !valid {
        return Threw(InvalidArgument);
      }
      o := TcpThrowIfConnectionClosed();
      if o.Done? {
        o := SendRobotCommand(motion, control, false);
      }
    }

    method StartMotion(controller: ControllerMode, generator: GeneratorMode) returns (o: Outcome)
      requires controller != OtherController && generator != IdleGenerator
      modifies this
      ensures messageId >= old(messageId) && |inputs| <= |old(inputs)|
      ensures old(MotionGeneratorRunning() || ControllerRunning()) ==>
                o == Threw(ControlError) && log == old(log)
                && currentMoveMotionGeneratorMode == old(currentMoveMotionGeneratorMode)
                && currentMoveControllerMode == old(currentMoveControllerMode)
      ensures !old(MotionGeneratorRunning() || ControllerRunning()) ==>
                && currentMoveMotionGeneratorMode == generator && currentMoveControllerMode == controller
                && log == old(log) + [MoveSent(generator, controller)]
      ensures o.Threw? ==> !o.e.Rejected?
      ensures !old(MotionGeneratorRunning() || ControllerRunning())
              && (Runs(generator) || controller == ExternalController) ==>
                && (BeginsWith(old(inputs), STARTED_THEN_CLOSED) ==> o == Threw(NetworkError))
                && (BeginsWith(old(inputs), STARTED_AND_CONFIRMED) ==>
                      o == Done && inputs == old(inputs)[2..] && messageId == old(messageId))
      ensures !old(MotionGeneratorRunning() || ControllerRunning()) ==>
                StartsAs(o, old(inputs), old(messageId), generator, controller,
                         old(motionGeneratorMode) == generator && old(controllerMode) == controller)
    {
      if MotionGeneratorRunning() || ControllerRunning() {
        return Threw(ControlError);
      }
      currentMoveMotionGeneratorMode, currentMoveControllerMode := generator, controller;
      assert BeginsWith(inputs, STARTED_THEN_CLOSED) ==> inputs[0] == Response(MotionStarted) && inputs[1] == Closed;
      assert BeginsWith(inputs, STARTED_AND_CONFIRMED) ==> inputs[0] == inputs[1] == Response(MotionStarted);
      o := ExecuteMove();
      if o.Done? {
        o := AwaitStart();
      }
    }

    // The part of startMotion after the Move has been accepted.
    method AwaitStart() returns (o: Outcome)
      modifies this`inputs, this`robotMode, this`motionGeneratorMode, this`controllerMode, this`messageId, this`log
      ensures messageId >= old(messageId) && |inputs| <= |old(inputs)| && log == old(log)
      ensures o.Threw? ==> o.e in {ControlError, NetworkError, ProtocolError}
      ensures old(InModes()) || (old(inputs) != [] && old(inputs)[0].Response?) ==>
                && motionGeneratorMode == old(motionGeneratorMode) && controllerMode == old(controllerMode)
                && messageId == old(messageId)
                && inputs == old(inputs)[if old(InModes()) then 0 else 1..]
      ensures !old(InModes()) && Broken(old(inputs)) ==> o == Threw(NetworkError)
      ensures StartedAsSigned(o, old(InModes()), old(NextSign()))
    {
      ghost var inModes, sign := InModes(), NextSign();
      while motionGeneratorMode != currentMoveMotionGeneratorMode || controllerMode != currentMoveControllerMode
        invariant messageId >= old(messageId) && |inputs| <= |old(inputs)| && log == old(log)
        invariant inModes ==> InModes()
        invariant inModes || (old(inputs) != [] && (old(inputs)[0].Response? || old(inputs)[0] == Closed)) ==>
                    inputs == old(inputs) && messageId == old(messageId)
                    && motionGeneratorMode == old(motionGeneratorMode) && controllerMode == old(controllerMode)
        invariant !inModes && sign != Unclear ==> sign == if InModes() then ModesReached else NextSign()
        decreases |inputs|
      {
        ghost var was := inputs;
        var response;
        o, response := TcpReceive();
        if o.Threw? {
          return;
        }
        if response.Some? {
          var v := MoveVerdict(response.value, MotionGeneratorRunning());
          if v == Threw(CommandError) {
            return Threw(ControlError);
          } else if v.Threw? {
            return v;
          }
          break;
        }
        assert was != [] ==> inputs == was[1..] && (|was| > 3 ==> inputs[3..] == was[4..]);
        var state;
        o, state := UpdateMotionSilently();
        if o.Threw? {
          return;
        }
      }
      o := Done;
    }

    // updateMotion without a command: nothing is sent, so nothing can be rejected.
    method UpdateMotionSilently() returns (o: Outcome, state: RobotState)
      modifies this`inputs, this`robotMode, this`motionGeneratorMode, this`controllerMode, this`messageId, this`log
      ensures log == old(log) && (o == Done || o == Threw(NetworkError))
      ensures Broken(old(inputs)) ==> o.Threw? && inputs == old(inputs)[1..]
      ensures StateIsNext(old(inputs), old(messageId)) ==>
                o.Done? && state == old(inputs)[1].state && inputs == old(inputs)[3..]
      ensures messageId >= old(messageId)
              && (o.Done? ==> messageId == state.messageId && Later(old(messageId), messageId))
      ensures o.Done? ==>
                robotMode == state.robotMode && motionGeneratorMode == state.generator
                    && controllerMode == state.controller
      ensures |inputs| <= |old(inputs)| && (o.Done? ==> |inputs| < |old(inputs)|)
    {
      state := RobotState(messageId, robotMode, motionGeneratorMode, controllerMode);
      o := TcpThrowIfConnectionClosed();
      if o.Done? {
        o := SendRobotCommand(false, false, false);
        if StateIsNext(old(inputs), messageId) {
          NextIsReceived(old(inputs), messageId);
        }
        o, state := ReceiveRobotState();
      }
    }

    method ExecuteMove() returns (o: Outcome)
      modifies this`inputs, this`log
      ensures log == old(log) + [MoveSent(currentMoveMotionGeneratorMode, currentMoveControllerMode)]
      ensures o.Threw? ==> o.e in {NetworkError, CommandError, ProtocolError}
      ensures old(inputs) != [] && old(inputs)[0].Response? ==>
                o == MoveVerdict(old(inputs)[0].status, MotionGeneratorRunning()) && inputs == old(inputs)[1..]
      ensures |inputs| <= |old(inputs)|
    {
      log := log + [MoveSent(currentMoveMotionGeneratorMode, currentMoveControllerMode)];
      var status;
      o, status := TcpBlockingReceive();
      if o.Done? {
        o := MoveVerdict(status, MotionGeneratorRunning());
      }
    }

    // Commands the end of the motion and waits until the robot reports it.
    method FinishMotion(motion: bool, control: bool) returns (o: Outcome)
      modifies this
      ensures messageId >= old(messageId) && |inputs| <= |old(inputs)|
      ensures o.Done? ==> AtRest()
      ensures o.Threw? ==> currentMoveMotionGeneratorMode == old(currentMoveMotionGeneratorMode)
                           && currentMoveControllerMode == old(currentMoveControllerMode)
      ensures o.Threw? && o.e.Rejected? ==>
                Verdict(old(currentMoveMotionGeneratorMode), old(currentMoveControllerMode), motion, control)
                    == Some(o.e.why)
      ensures old(MotionGeneratorRunning() || ControllerRunning()) && o.Done? ==>
                (motion || control) && |old(log)| < |log|
      ensures old(log) <= log && OnlyFinishing(log[|old(log)|..], motion, control)
      ensures !old(MotionGeneratorRunning() || ControllerRunning()) ==> o == Done && log == old(log)
      ensures old(MotionGeneratorRunning() || ControllerRunning()) && !motion && !control ==>
                o == Threw(ControlError) && log == old(log)
      ensures old(MotionGeneratorRunning() || ControllerRunning()) && (motion || control)
              && old(CurrentVerdict(motion, control)) == None ==>
                FinishesAs(o, old(inputs), old(messageId))
    {
      hide Later, Receive, Verdict, RespondedAs;
      if !MotionGeneratorRunning() && !ControllerRunning() {
        currentMoveMotionGeneratorMode, currentMoveControllerMode := IdleGenerator, OtherController;
        return Done;
      }
      if !motion && !control {
        return Threw(ControlError);
      }
      while MotionGeneratorRunning() || ControllerRunning()
        invariant messageId >= old(messageId) && |inputs| <= |old(inputs)|
        invariant currentMoveMotionGeneratorMode == old(currentMoveMotionGeneratorMode)
        invariant currentMoveControllerMode == old(currentMoveControllerMode)
        invariant old(log) <= log && OnlyFinishing(log[|old(log)|..], motion, control)
        invariant (MotionGeneratorRunning() || ControllerRunning())
                  == old(MotionGeneratorRunning() || ControllerRunning()) || |old(log)| < |log|
        invariant var s := FinalStatus(old(inputs), old(messageId));
                  old(CurrentVerdict(motion, control)) == None && s.Some? ==>
                    if MotionGeneratorRunning() || ControllerRunning() then FinalStatus(inputs, messageId) == s
                    else inputs != [] && inputs[0] == Response(s.value)
        decreases |inputs|
      {
        var state;
        o, state := UpdateMotion(motion, control, true);
        if o.Threw? {
          return;
        }
      }
      o := AwaitFinalResponse();
      if o.Done? {
        currentMoveMotionGeneratorMode, currentMoveControllerMode := IdleGenerator, OtherController;
      }
    }

    // The part of finishMotion after the robot has come to rest.
    method AwaitFinalResponse() returns (o: Outcome)
      requires !MotionGeneratorRunning()
      modifies this`inputs
      ensures o.Threw? ==> o.e in {ControlError, NetworkError, ProtocolError}
      ensures |inputs| <= |old(inputs)|
      ensures old(inputs) != [] && old(inputs)[0].Response? ==> RespondedAs(o, old(inputs)[0].status)
    {
      var status;
      o, status := TcpBlockingReceive();
      if o.Threw? {
        return;
      }
      if status == ReflexAborted {
        return Threw(ControlError);
      }
      var v := MoveVerdict(status, MotionGeneratorRunning());
      if v == Threw(CommandError) {
        return Threw(ControlError);
      }
      return v;
    }

    method FinishTorqueMotion(valid: bool) returns (o: Outcome)
      modifies this
      ensures messageId >= old(messageId) && |inputs| <= |old(inputs)|
      ensures o.Done? ==> AtRest()
      ensures o.Threw? ==> currentMoveMotionGeneratorMode == old(currentMoveMotionGeneratorMode)
                           && currentMoveControllerMode == old(currentMoveControllerMode)
      ensures o.Threw? && o.e.Rejected? ==>
                Verdict(old(currentMoveMotionGeneratorMode), old(currentMoveControllerMode), false, true)
                    == Some(o.e.why)
      ensures !valid || old(MotionGeneratorRunning()) ==> o == Threw(InvalidArgument) && log == old(log)
      ensures valid && !old(MotionGeneratorRunning()) ==>
                if !old(ControllerRunning()) then o == Done && log == old(log)
                else old(CurrentVerdict(false, true)) == None ==> FinishesAs(o, old(inputs), old(messageId))
    {
      if !valid || MotionGeneratorRunning() {
        return Threw(InvalidArgument);
      }
      o := FinishMotion(false, true);
    }

    lemma ArrivesNext()
      ensures StateArrives(inputs, messageId) ==>
                Receive(inputs, messageId) == Received(inputs[0].state, inputs[2..])
    {
      if StateArrives(inputs, messageId) {
        ArrivalIsReceived(inputs, messageId);
      }
    }

    // Receives states until one reports the robot at rest.
    method AwaitRest() returns (o: Outcome)
      modifies this`inputs, this`robotMode, this`motionGeneratorMode, this`controllerMode, this`messageId
      ensures messageId >= old(messageId) && |inputs| <= |old(inputs)|
      ensures o == Done || o == Threw(NetworkError)
      ensures o.Done? ==> !MotionGeneratorRunning() && !ControllerRunning()
      ensures var rest := AfterRest(old(inputs), old(messageId)); rest.Some? ==> o == Done && inputs == rest.value
    {
      hide Receive, Later;
      var state;
      ghost var rest := AfterRest(inputs, messageId);
      ArrivesNext();
      o, state := ReceiveRobotState();
      while o.Done? && (MotionGeneratorRunning() || ControllerRunning())
        invariant messageId >= old(messageId) && |inputs| <= |old(inputs)|
        invariant o == Done || o == Threw(NetworkError)
        invariant rest.Some? ==>
                    o == Done && rest == if MotionGeneratorRunning() || ControllerRunning()
                                         then AfterRest(inputs, messageId) else Some(inputs)
        decreases |inputs|, if o.Done? then 1 else 0
        modifies this`inputs, this`robotMode, this`motionGeneratorMode, this`controllerMode, this`messageId
      {
        ArrivesNext();
        o, state := ReceiveRobotState();
      }
    }

    // Stops the motion; with a dead command connection it gives up without effect.
    method CancelMotion() returns (o: Outcome, alive: bool)
      modifies this
      ensures messageId >= old(messageId) && |inputs| <= |old(inputs)|
      ensures o.Done? && alive ==> AtRest()
      ensures alive ==> log == old(log) + [StopSent]
      ensures !alive ==> o == Done && log == old(log)
      ensures o.Threw? || !alive ==> currentMoveMotionGeneratorMode == old(currentMoveMotionGeneratorMode)
                                     && currentMoveControllerMode == old(currentMoveControllerMode)
      ensures o.Threw? ==> o.e in {ControlError, NetworkError, ProtocolError}
      ensures |old(inputs)| >= 2 && old(inputs)[0] != Closed && old(inputs)[1] == Closed ==>
                o == Threw(NetworkError) && alive
      ensures alive == !Broken(old(inputs))
      ensures CancelsAs(o, old(inputs), old(messageId))
    {
      hide Receive, AfterRest;
      var i := Next();
      alive := i != Closed;
      if !alive {
        return Done, false;
      }
      log := log + [StopSent];
      var status;
      o, status := TcpBlockingReceive();
      if o.Threw? {
        return;
      }
      o := StopVerdict(status);
      if o == Threw(CommandError) {
        return Threw(ControlError), true;
      } else if o.Threw? {
        return;
      }
      o := AwaitRest();
      if o.Threw? {
        return;
      }
      var response;
      o, response := TcpReceive();
      if o.Threw? {
        return;
      }
      currentMoveMotionGeneratorMode, currentMoveControllerMode := IdleGenerator, OtherController;
      return Done, true;
    }
  }
}
