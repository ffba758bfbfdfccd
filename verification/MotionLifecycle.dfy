/** Controls, their lock and the control loop: libfranka/src/active_control.cpp, active_motion_generator.cpp,
    active_torque_control.cpp, robot.cpp and control_loop.cpp. */
module MotionLifecycle {
  import opened Options
  import opened RobotMessages
  import opened RobotImplementation

  // The mutex that a control holds until it is finished or destroyed.
  class ControlMutex {
    var locked: bool
    ghost var holder: ActiveControl?

    ghost predicate Consistent()
      reads this
    {
      locked <==> holder != null
    }

    constructor ()
      ensures !locked && holder == null
    {
      locked, holder := false, null;
    }
  }

  predicate Moves(s: RobotState, generator: GeneratorMode, controller: ControllerMode) {
    s.generator == generator && s.controller == controller
  }

  class ActiveControl {
    const impl: RobotImpl
    const mutex: ControlMutex
    const generator: GeneratorMode
    const controller: ControllerMode
    var controlFinished: bool
    var ownsLock: bool
    var destroyed: bool
    var lastReadAccess: Option<nat>
    ghost var readTimes: seq<nat>
    ghost var steps: seq<int>

    // The control owns the mutex exactly while it is unfinished, and then the
    // current move of the robot is this control's.
    ghost predicate Valid()
      reads this, impl, mutex
    {
      && generator != IdleGenerator && controller != OtherController
      && (generator == NoGenerator ==> controller == ExternalController)
      && mutex.Consistent()
      && ownsLock == (!controlFinished && !destroyed)
      && (ownsLock <==> mutex.holder == this)
      && (ownsLock ==> impl.currentMoveMotionGeneratorMode == generator && impl.currentMoveControllerMode == controller)
      && Chronological(readTimes) && (forall t :: t in readTimes ==> t <= impl.messageId)
      && lastReadAccess == (if readTimes == [] then None else Some(readTimes[|readTimes| - 1]))
      && steps == TimeSteps(readTimes)
    }

    // What an operation of one control leaves alone while another one holds the lock.
    twostate predicate LeavesOthersAlone()
      reads this, impl, mutex
    {
      && impl.messageId >= old(impl.messageId)
      && (!old(ownsLock) ==>
            && mutex.holder == old(mutex.holder) && mutex.locked == old(mutex.locked) && !ownsLock
            && impl.currentMoveMotionGeneratorMode == old(impl.currentMoveMotionGeneratorMode)
            && impl.currentMoveControllerMode == old(impl.currentMoveControllerMode))
      && (old(ownsLock) ==> mutex.holder == (if ownsLock then this else null))
    }

    constructor (impl: RobotImpl, mutex: ControlMutex, generator: GeneratorMode, controller: ControllerMode)
      requires mutex.locked && mutex.holder == null
      requires generator != IdleGenerator && controller != OtherController
      requires generator == NoGenerator ==> controller == ExternalController
      requires impl.currentMoveMotionGeneratorMode == generator && impl.currentMoveControllerMode == controller
      modifies mutex`holder
      ensures Valid() && ownsLock && this.impl == impl && this.mutex == mutex
      ensures this.generator == generator && this.controller == controller
      ensures mutex.holder == this && readTimes == []
    {
      this.impl, this.mutex, this.generator, this.controller := impl, mutex, generator, controller;
      controlFinished, ownsLock, destroyed := false, true, false;
      lastReadAccess, readTimes, steps := None, [], [];
      new;
      mutex.holder := this;
    }

    method Unlock()
      requires ownsLock && mutex.holder == this && mutex.locked
      modifies this`ownsLock, mutex
      ensures !ownsLock && !mutex.locked && mutex.holder == null
    {
      ownsLock, mutex.locked, mutex.holder := false, false, null;
    }

    // ActiveMotionGenerator::writeOnce. torques says whether a torque command is given
    // and whether it is the last one; valid whether the values pass their checks.
    method WriteMotion(motionFinished: bool, torques: Option<bool>, valid: bool) returns (o: Outcome)
      requires Valid() && generator != NoGenerator && !destroyed
      modifies this`controlFinished, this`ownsLock, mutex, impl
      ensures Valid() && LeavesOthersAlone()
      ensures o.Threw? ==> !o.e.Rejected? && controlFinished == old(controlFinished)
      ensures old(controlFinished) ==> o == Threw(ControlError)
      ensures torques.Some? != (controller == ExternalController) ==> o == Threw(ControlError)
      ensures o.Done? ==> controlFinished == (motionFinished || torques == Some(true))
      ensures o.Done? && controlFinished ==> impl.AtRest() && !mutex.locked
      ensures o.Done? && !controlFinished ==>
                impl.log == old(impl.log) + [CommandSent(impl.messageId, true, torques.Some?, false)]
      // The connection decides about any other command, and the robot's response about the last one.
      ensures !old(controlFinished) && torques.Some? == (controller == ExternalController) ==>
                if !valid then o == Threw(InvalidArgument)
                else if !motionFinished && torques != Some(true) then
                  o == if Broken(old(impl.inputs)) then Threw(NetworkError) else Done
                else if old(impl.MotionGeneratorRunning() || impl.ControllerRunning()) then
                  FinishesAs(o, old(impl.inputs), old(impl.messageId))
                else o == Done
    {
      if controlFinished {
        return Threw(ControlError);
      }
      if torques.Some? && controller != ExternalController {
        return Threw(ControlError);
      }
      if torques.None? && controller == ExternalController {
        return Threw(ControlError);
      }
      AcceptedExactlyIfMatching(generator, controller, true, torques.Some?);
      if motionFinished || torques == Some(true) {
        if !valid {
          return Threw(InvalidArgument);
        }
        o := impl.FinishMotion(true, torques.Some?);
        if o.Threw? {
          return;
        }
        controlFinished := true;
        Unlock();
        return;
      }
      o := impl.WriteOnce(true, torques.Some?, valid);
    }

    // ActiveTorqueControl::writeOnce.
    method WriteTorques(finished: bool, valid: bool) returns (o: Outcome)
      requires Valid() && generator == NoGenerator && !destroyed
      modifies this`controlFinished, this`ownsLock, mutex, impl
      ensures Valid() && LeavesOthersAlone()
      ensures o.Threw? ==> !o.e.Rejected? && controlFinished == old(controlFinished)
      ensures old(controlFinished) ==> o == Threw(ControlError)
      ensures o.Done? ==> controlFinished == finished
      ensures o.Done? && controlFinished ==> impl.AtRest() && !mutex.locked
      ensures o.Done? && !controlFinished ==>
                impl.log == old(impl.log) + [CommandSent(impl.messageId, false, true, false)]
      ensures !old(controlFinished) ==>
                if !valid || (finished && old(impl.MotionGeneratorRunning())) then o == Threw(InvalidArgument)
                else if !finished then o == if Broken(old(impl.inputs)) then Threw(NetworkError) else Done
                else if old(impl.ControllerRunning()) then FinishesAs(o, old(impl.inputs), old(impl.messageId))
                else o == Done
    {
      if controlFinished {
        return Threw(ControlError);
      }
      AcceptedExactlyIfMatching(generator, controller, false, true);
      if finished {
        o := impl.FinishTorqueMotion(valid);
        if o.Threw? {
          return;
        }
        controlFinished := true;
        Unlock();
        return;
      }
      o := impl.WriteOnce(false, true, valid);
    }

    // ActiveControl::readOnce: the state, and the time since the last read.
    method ReadOnce() returns (o: Outcome, state: RobotState, step: int)
      requires Valid() && !destroyed
      modifies this`lastReadAccess, this`readTimes, this`steps, impl`inputs, impl`robotMode, impl`motionGeneratorMode,
          impl`controllerMode, impl`messageId
      ensures Valid() && LeavesOthersAlone()
      ensures o.Done? ==> readTimes == old(readTimes) + [state.messageId] && steps == old(steps) + [step] && step >= 0
      ensures o.Done? && old(readTimes) == [] ==> step == 0
      ensures o.Done? && old(readTimes) != [] && step == 0 ==> old(readTimes[|readTimes| - 1]) >= ID_LIMIT
      ensures o.Done? ==> Sum(steps) + readTimes[0] == state.messageId
      ensures o.Done? ==> state.robotMode == MoveMode && impl.motionGeneratorMode == impl.currentMoveMotionGeneratorMode
                          && impl.controllerMode == impl.currentMoveControllerMode
      ensures o.Threw? ==> readTimes == old(readTimes) && !o.e.Rejected?
      ensures var r := Receive(old(impl.inputs), old(impl.messageId));
              && (r.Failed? ==> o == Threw(NetworkError))
              && (r.Received? ==>
                    (o.Done? <==> r.state.robotMode == MoveMode && Moves(r.state, impl.currentMoveMotionGeneratorMode,
                                                                         impl.currentMoveControllerMode))
                    && (o.Done? ==> state == r.state))
    {
      hide Chronological, TimeSteps, Sum, Receive;
      step := 0;
      o, state := impl.ReadOnce();
      if o.Threw? {
        return;
      }
      o := impl.ThrowOnMotionError(state);
      if o.Threw? {
        return;
      }
      if lastReadAccess.None? {
        lastReadAccess := Some(state.messageId);
      }
      step := state.messageId - lastReadAccess.value;
      lastReadAccess := Some(state.messageId);
      ReadRecorded(readTimes, old(impl.messageId), state.messageId);
      readTimes, steps := readTimes + [state.messageId], steps + [step];
    }

    // The destructor. A cancellation that throws ends the program, since destructors
    // must not throw; otherwise the lock is released afterwards.
    method Destroy() returns (o: Outcome, alive: bool)
      requires Valid() && !destroyed
      modifies this`destroyed, this`ownsLock, mutex, impl
      ensures Valid() && LeavesOthersAlone()
      ensures o.Done? ==> destroyed && !ownsLock
      ensures o.Threw? ==> !o.e.Rejected? && !destroyed && ownsLock == old(ownsLock)
      ensures old(ownsLock) && o.Done? && alive ==> impl.AtRest() && impl.log == old(impl.log) + [StopSent]
      ensures old(ownsLock) ==> o.Threw? == mutex.locked
      ensures !old(ownsLock) ==> o == Done && impl.log == old(impl.log)
      ensures old(ownsLock) ==> alive == !Broken(old(impl.inputs))
      ensures old(ownsLock) ==> CancelsAs(o, old(impl.inputs), old(impl.messageId))
    {
      o, alive := Done, true;
      if !controlFinished {
        o, alive := impl.CancelMotion();
        if o.Threw? {
          return;
        }
      }
      destroyed := true;
      if ownsLock {
        Unlock();
      }
    }
  }

  lemma ChronologicalAppend(times: seq<nat>, now: nat, id: nat)
    requires Chronological(times) && (forall t :: t in times ==> t <= now) && Later(now, id)
    ensures Chronological(times + [id])
    ensures times != [] ==> Later(times[|times| - 1], id)
  {
    var all := times + [id];
    forall i, j | 0 <= i < j < |all| ensures Later(all[i], all[j]) {
      assert times[i] in times;
      assert j < |times| ==> all[j] == times[j];
    }
    if times != [] {
      assert times[|times| - 1] in times;
    }
  }

  // now is an id received after those at the given times.
  lemma ReadRecorded(times: seq<nat>, now: nat, id: nat)
    requires Chronological(times) && (forall t :: t in times ==> t <= now) && Later(now, id)
    ensures var all, step := times + [id], id - (if times == [] then id else times[|times| - 1]);
            && Chronological(all)
            && TimeSteps(all) == TimeSteps(times) + [step]
            && Sum(TimeSteps(all)) + all[0] == id
            && step >= 0 && (times != [] && step == 0 ==> times[|times| - 1] >= ID_LIMIT)
  {
    ChronologicalAppend(times, now, id);
    hide Chronological;
    TimeStepsTelescope(times + [id]);
  }

  // Times of states and the time steps derived from them: none underflows, the
  // first is zero, and together they are the time that passed.
  ghost predicate Timed(times: seq<nat>, steps: seq<int>) {
    && Chronological(times) && steps == TimeSteps(times) && StepsForward(times, steps)
    && (times != [] ==> Sum(steps) + times[0] == times[|times| - 1])
  }

  lemma TimedStart()
    ensures Timed([], [])
  {
  }

  lemma TimedAppend(times: seq<nat>, steps: seq<int>, id: nat)
    requires Timed(times, steps) && (times == [] || Later(times[|times| - 1], id))
    ensures Timed(times + [id], steps + [id - (if times == [] then id else times[|times| - 1])])
  {
    var now := if times == [] then id else times[|times| - 1];
    forall i, j | 0 <= i < j < |times| + 1 ensures Later((times + [id])[i], (times + [id])[j]) {
      assert i < |times| - 1 ==> Later(times[i], now);
    }
    assert Chronological(times + [id]);
    hide Chronological, Sum;
    assert TimeSteps(times + [id]) == TimeSteps(times) + [id - now];
    TimeStepsForward(times + [id]);
    TimeStepsTelescope(times + [id]);
  }

  // How a loop finished: by the control callback or not, and the tick whose motion
  // output the finishing command holds; none if it is still the initial, all-zero command.
  datatype Finish = Finish(byControl: bool, motionFrom: Option<nat>)

  // The robot moves in the requested modes, and the callback that is asked first
  // finishes on the first tick.
  predicate FinishesAtOnce(inputs: seq<Input>, last: nat, generator: GeneratorMode, controller: ControllerMode) {
    && |inputs| >= 4 && inputs[0] == inputs[2] == Nothing
    && inputs[1].Datagram? && inputs[1].state.messageId > last && inputs[1].state.robotMode == MoveMode
    && Moves(inputs[1].state, generator, controller)
    && CallbackFinishes(inputs[3..], controller == ExternalController)
  }

  predicate CallbackFinishes(inputs: seq<Input>, control: bool) {
    inputs != [] && inputs[0].Callback? && if control then inputs[0].controlFinished else inputs[0].motionFinished
  }

  // One command for each tick, for the state the tick saw.
  ghost predicate Ticked(before: seq<Event>, log: seq<Event>, times: seq<nat>, motion: bool, control: bool) {
    && before <= log && |log| == |before| + |times|
    && forall i :: 0 <= i < |times| ==> log[|before| + i] == CommandSent(times[i], motion, control, false)
  }

  lemma TickedStart(before: seq<Event>, motion: bool, control: bool)
    ensures Ticked(before, before, [], motion, control)
  {
  }

  lemma TickedAppend(before: seq<Event>, log: seq<Event>, times: seq<nat>, motion: bool, control: bool, id: nat)
    requires Ticked(before, log, times, motion, control)
    ensures Ticked(before, log + [CommandSent(id, motion, control, false)], times + [id], motion, control)
  {
  }

  // What a loop that finished has sent: a command for each tick but the last, and then
  // commands that announce the end, at least one.
  ghost predicate Commanded(before: seq<Event>, log: seq<Event>, times: seq<nat>, motion: bool, control: bool) {
    && times != [] && |before| + |times| <= |log|
    && Ticked(before, log[..|before| + |times| - 1], times[..|times| - 1], motion, control)
    && OnlyFinishing(log[|before| + |times| - 1..], motion, control)
  }

  lemma FinishCommanded(before: seq<Event>, ticked: seq<Event>, log: seq<Event>, times: seq<nat>, motion: bool,
                        control: bool)
    requires times != [] && Ticked(before, ticked, times[..|times| - 1], motion, control)
    requires ticked <= log && |ticked| < |log| && OnlyFinishing(log[|ticked|..], motion, control)
    ensures Commanded(before, log, times, motion, control)
  {
    assert log[..|ticked|] == ticked;
  }

  // The command connection fails, works for one call, and fails again.
  const BROKEN_TWICE := [Closed, Nothing, Closed]

  // ----- The robot -----

  class Robot {
    const impl: RobotImpl
    const mutex: ControlMutex

    ghost predicate Valid()
      reads this, mutex, impl, mutex.holder
    {
      && mutex.Consistent()
      && (mutex.holder != null ==> mutex.holder.impl == impl && mutex.holder.mutex == mutex && mutex.holder.Valid())
    }

    constructor (impl: RobotImpl)
      ensures Valid() && !mutex.locked && this.impl == impl && fresh(mutex)
    {
      this.impl := impl;
      mutex := new ControlMutex();
    }

    // startControl, and with NoGenerator and ExternalController startTorqueControl.
    method StartControl(generator: GeneratorMode, controller: ControllerMode)
      returns (o: Outcome, control: ActiveControl?)
      requires Valid() && generator != IdleGenerator && controller != OtherController
      requires generator == NoGenerator ==> controller == ExternalController
      modifies mutex, impl
      ensures Valid() && impl.messageId >= old(impl.messageId)
      ensures old(mutex.locked) ==>
                o == Threw(InvalidOperation) && mutex.holder == old(mutex.holder) && impl.log == old(impl.log)
                                    && impl.currentMoveMotionGeneratorMode == old(impl.currentMoveMotionGeneratorMode)
                                    && impl.currentMoveControllerMode == old(impl.currentMoveControllerMode)
      ensures o.Done? <==> control != null
      ensures o.Done? ==>
                fresh(control) && control.Valid() && control.impl == impl && control.mutex == mutex
                    && mutex.holder == control
                          && control.generator == generator && control.controller == controller && !control.destroyed
      ensures o.Threw? ==> mutex.locked == old(mutex.locked) && mutex.holder == old(mutex.holder) && !o.e.Rejected?
      // A start that fails has sent the Move, and nothing else, exactly if the lock was free
      // and the robot idle; nothing stops a motion that the Move has started.
      ensures impl.log == old(impl.log) || impl.log == old(impl.log) + [MoveSent(generator, controller)]
      ensures impl.log != old(impl.log)
              <==> !old(mutex.locked) && !old(impl.MotionGeneratorRunning() || impl.ControllerRunning())
      ensures impl.log != old(impl.log) && BeginsWith(old(impl.inputs), STARTED_THEN_CLOSED) ==>
                o == Threw(NetworkError)
      ensures !old(mutex.locked) ==>
                if old(impl.MotionGeneratorRunning() || impl.ControllerRunning()) then o == Threw(ControlError)
                else StartsAs(o, old(impl.inputs), old(impl.messageId), generator, controller,
                              old(impl.motionGeneratorMode) == generator && old(impl.controllerMode) == controller)
    {
      if mutex.locked {
        return Threw(InvalidOperation), null;
      }
      mutex.locked := true;
      o := impl.StartMotion(controller, generator);
      if o.Threw? {
        mutex.locked := false;
        return o, null;
      }
      control := new ActiveControl(impl, mutex, generator, controller);
    }

    // Robot::control: the lock is taken for the whole loop and released in any case.
    // dropped is the outcome of the cancellation after a failed loop.
    method Control(generator: GeneratorMode, controller: ControllerMode)
      returns (o: Outcome, ghost dropped: Outcome, ghost times: seq<nat>, ghost steps: seq<int>)
      requires Valid() && generator != IdleGenerator && controller != OtherController
      requires generator == NoGenerator ==> controller == ExternalController
      modifies mutex, impl
      ensures Valid() && impl.messageId >= old(impl.messageId)
      ensures old(mutex.locked) ==> o == Threw(InvalidOperation) && impl.log == old(impl.log)
                                    && impl.currentMoveMotionGeneratorMode == old(impl.currentMoveMotionGeneratorMode)
                                    && impl.currentMoveControllerMode == old(impl.currentMoveControllerMode)
      ensures mutex.locked == old(mutex.locked) && mutex.holder == old(mutex.holder)
      ensures o.Done? ==> impl.AtRest()
      ensures o.Threw? ==> !o.e.Rejected?
      ensures Timed(times, steps)
      ensures dropped.Threw? ==>
                o.Threw? && impl.currentMoveMotionGeneratorMode == generator
                    && impl.currentMoveControllerMode == controller
      ensures !old(mutex.locked || impl.MotionGeneratorRunning() || impl.ControllerRunning())
              && BeginsWith(old(impl.inputs), STARTED_AND_CONFIRMED + BROKEN_TWICE) ==>
                o == Threw(NetworkError) && dropped == Threw(NetworkError)
      ensures !old(mutex.locked) && old(impl.MotionGeneratorRunning() || impl.ControllerRunning()) ==>
                o == Threw(ControlError)
      // After a normal return the robot was sent the Move, one command for each tick, and the end.
      ensures o.Done? ==> Commanded(old(impl.log) + [MoveSent(generator, controller)], impl.log, times,
                                    generator != NoGenerator, controller == ExternalController)
      // With a motion that starts and finishes, the last response decides.
      ensures !old(mutex.locked || impl.MotionGeneratorRunning() || impl.ControllerRunning())
              && BeginsWith(old(impl.inputs), STARTED_AND_CONFIRMED)
              && FinishesAtOnce(old(impl.inputs)[2..], old(impl.messageId), generator, controller) ==>
                FinishesAs(o, old(impl.inputs)[6..], old(impl.inputs)[3].state.messageId)
    {
      hide Timed, Commanded, FinishesAs, StartsAs, OnlyFinishing;
      dropped, times, steps := Done, [], [];
      TimedStart();
      if mutex.locked {
        o := Threw(InvalidOperation);
        return;
      }
      mutex.locked := true;
      ghost var first := impl.inputs;
      o := impl.StartMotion(controller, generator);
      if o.Done? {
        assert BeginsWith(first, STARTED_AND_CONFIRMED + BROKEN_TWICE) ==>
            BeginsWith(first, STARTED_AND_CONFIRMED) && BeginsWith(first[2..], BROKEN_TWICE);
        assert |first| >= 6 ==> first[2..][4..] == first[6..];
        o, dropped, times, steps := Loop(generator, controller);
      }
      mutex.locked := false;
    }

    // ControlLoop::loop: after a failure the motion is cancelled, and an exception of
    // the cancellation itself is dropped.
    method Loop(generator: GeneratorMode, controller: ControllerMode)
      returns (o: Outcome, ghost dropped: Outcome, ghost times: seq<nat>, ghost steps: seq<int>)
      requires mutex.locked
      requires generator != IdleGenerator && controller != OtherController
      requires generator == NoGenerator ==> controller == ExternalController
      requires impl.currentMoveMotionGeneratorMode == generator && impl.currentMoveControllerMode == controller
      modifies impl
      ensures impl.messageId >= old(impl.messageId)
      ensures o.Done? ==> impl.AtRest() && dropped == Done
      ensures o.Threw? ==> !o.e.Rejected?
      ensures Timed(times, steps)
      ensures o.Done? ==>
                Commanded(old(impl.log), impl.log, times, generator != NoGenerator, controller == ExternalController)
      ensures FinishesAtOnce(old(impl.inputs), old(impl.messageId), generator, controller) ==>
                FinishesAs(o, old(impl.inputs)[4..], old(impl.inputs)[1].state.messageId)
      // A failed loop leaves the robot at rest if the cancellation got through.
      ensures o.Threw? && impl.currentMoveMotionGeneratorMode != generator ==> impl.AtRest() && StopSent in impl.log
      ensures dropped.Threw? ==>
                impl.currentMoveMotionGeneratorMode == generator && impl.currentMoveControllerMode == controller
      ensures BeginsWith(old(impl.inputs), BROKEN_TWICE) ==> o == Threw(NetworkError) && dropped == Threw(NetworkError)
    {
      hide Timed, Commanded, FinishesAs, OnlyFinishing;
      dropped := Done;
      ghost var finish;
      o, times, steps, finish := RunCallbacks(generator, controller);
      if o.Threw? {
        var cancelled, alive := impl.CancelMotion();
        dropped := cancelled;
      }
    }

    // Both callbacks in turn; the second is not asked once the first has finished.
    method AskCallbacks(control: bool, motion: bool) returns (o: Outcome, notFinished: bool, ghost byControl: bool)
      modifies impl`inputs
      ensures o == Done || o == Threw(CallbackError)
      ensures |impl.inputs| <= |old(impl.inputs)|
      ensures byControl ==> control && !notFinished
      ensures old(impl.inputs) != [] && old(impl.inputs)[0].Callback? && control ==>
                (old(impl.inputs)[0].controlFinished ==>
                   o.Done? && byControl && impl.inputs == old(impl.inputs)[1..])
      ensures old(impl.inputs) != [] && old(impl.inputs)[0].Callback? && motion && !control ==>
                o.Done? && notFinished == !old(impl.inputs)[0].motionFinished && impl.inputs == old(impl.inputs)[1..]
      ensures |old(impl.inputs)| >= 2 && old(impl.inputs)[0].Callback? && old(impl.inputs)[1].Callback?
              && control && !old(impl.inputs)[0].controlFinished ==>
                o.Done? && !byControl && notFinished == !(motion && old(impl.inputs)[1].motionFinished)
                        && impl.inputs == old(impl.inputs)[if motion then 2 else 1..]
    {
      notFinished, byControl := true, false;
      if control {
        var c := impl.Next();
        if !c.Callback? {
          return Threw(CallbackError), false, false;
        }
        notFinished, byControl := !c.controlFinished, c.controlFinished;
      }
      if motion && notFinished {
        var c := impl.Next();
        if !c.Callback? {
          return Threw(CallbackError), false, false;
        }
        notFinished := !c.motionFinished;
      }
      return Done, notFinished, byControl;
    }

    // One exchange with the robot: the command goes out, and the next state is one of the motion.
    method UpdateAndCheck(motion: bool, control: bool) returns (o: Outcome, state: RobotState)
      requires motion || control
      requires impl.CurrentVerdict(motion, control) == None
      modifies impl`inputs, impl`robotMode, impl`motionGeneratorMode, impl`controllerMode, impl`messageId, impl`log
      ensures impl.messageId >= old(impl.messageId) && |impl.inputs| <= |old(impl.inputs)|
      ensures o.Threw? ==> !o.e.Rejected?
      ensures o.Done? ==>
                && impl.InModes() && state.messageId == impl.messageId && Later(old(impl.messageId), impl.messageId)
                && |impl.inputs| < |old(impl.inputs)|
                && impl.log == old(impl.log) + [CommandSent(old(impl.messageId), motion, control, false)]
    {
      o, state := impl.UpdateMotion(motion, control, false);
      if o.Done? {
        o := impl.ThrowOnMotionError(state);
      }
    }

    // The loop proper. The ghost results are the times of the states it saw, the
    // time steps it gave to the callbacks, and how it finished, if it came to that.
    method RunCallbacks(generator: GeneratorMode, controller: ControllerMode)
      returns (o: Outcome, ghost times: seq<nat>, ghost steps: seq<int>, ghost finish: Option<Finish>)
      requires generator != IdleGenerator && controller != OtherController
      requires generator == NoGenerator ==> controller == ExternalController
      requires impl.currentMoveMotionGeneratorMode == generator && impl.currentMoveControllerMode == controller
      modifies impl
      ensures impl.messageId >= old(impl.messageId)
      ensures o.Done? ==> impl.AtRest()
      ensures o.Threw? ==> !o.e.Rejected?
      ensures o.Threw? ==>
                impl.currentMoveMotionGeneratorMode == generator && impl.currentMoveControllerMode == controller
      ensures Timed(times, steps)
      // The finishing command is the motion output of the last tick, or of the one before
      // if the control callback finished; it is all zero exactly if that was the first tick.
      ensures o.Done? ==> finish.Some?
      ensures finish.Some? ==> times != [] && (finish.value.byControl ==> controller == ExternalController)
      ensures finish.Some? && generator != NoGenerator ==>
                finish.value.motionFrom == if !finish.value.byControl then Some(|times| - 1)
                                           else if |times| > 1 then Some(|times| - 2) else None
      ensures FinishesAtOnce(old(impl.inputs), old(impl.messageId), generator, controller) ==>
                && FinishesAs(o, old(impl.inputs)[4..], old(impl.inputs)[1].state.messageId)
                && (generator != NoGenerator ==>
                      finish == Some(if controller == ExternalController then Finish(true, None)
                                     else Finish(false, Some(0))))
      ensures Broken(old(impl.inputs)) ==> o == Threw(NetworkError) && impl.inputs == old(impl.inputs)[1..]
      ensures o.Done? ==>
                Commanded(old(impl.log), impl.log, times, generator != NoGenerator, controller == ExternalController)
    {
      hide Timed, Ticked, Commanded, OnlyFinishing, FinishesAs;
      var control, motion := controller == ExternalController, generator != NoGenerator;
      times, steps, finish := [], [], None;
      TimedStart();
      var state;
      o, state := impl.UpdateMotionSilently();
      if o.Threw? {
        return;
      }
      o := impl.ThrowOnMotionError(state);
      if o.Threw? {
        return;
      }
      AcceptedExactlyIfMatching(generator, controller, motion, control);
      o, times, steps, finish := Ticks(control, motion, state.messageId);
      if o.Threw? {
        return;
      }
      ghost var ticked := impl.log;
      o := impl.FinishMotion(motion, control);
      if o.Done? {
        FinishCommanded(old(impl.log), ticked, impl.log, times, motion, control);
      }
    }

    // The ticks of the loop, from a first state at the given time until a callback finishes.
    method Ticks(control: bool, motion: bool, first: nat)
      returns (o: Outcome, ghost times: seq<nat>, ghost steps: seq<int>, ghost finish: Option<Finish>)
      requires (motion || control) && impl.CurrentVerdict(motion, control) == None
      requires first == impl.messageId && (impl.MotionGeneratorRunning() || impl.ControllerRunning())
      requires impl.InModes()
      modifies impl`inputs, impl`robotMode, impl`motionGeneratorMode, impl`controllerMode, impl`messageId, impl`log
      ensures impl.messageId >= old(impl.messageId) && Timed(times, steps)
      ensures o.Threw? ==> !o.e.Rejected? && finish.None?
      ensures o.Done? ==> impl.InModes()
      ensures o.Done? ==> finish.Some? && times != [] && times[0] == first
      ensures o.Done? ==> Ticked(old(impl.log), impl.log, times[..|times| - 1], motion, control)
      ensures finish.Some? ==> (finish.value.byControl ==> control)
      ensures finish.Some? && motion ==>
                finish.value.motionFrom == if !finish.value.byControl then Some(|times| - 1)
                                           else if |times| > 1 then Some(|times| - 2) else None
      ensures CallbackFinishes(old(impl.inputs), control) ==>
                o.Done? && impl.inputs == old(impl.inputs)[1..] && impl.messageId == old(impl.messageId)
                        && (motion ==> finish == Some(if control then Finish(true, None) else Finish(false, Some(0))))
    {
      hide Timed, Ticked, Later, Verdict;
      times, steps, finish := [], [], None;
      ghost var byControl, motionFrom: Option<nat> := false, None;
      var now: int, previous: int, notFinished := first, first, true;
      TimedStart();
      TickedStart(impl.log, motion, control);
      while notFinished
        invariant impl.messageId >= old(impl.messageId) && now == impl.messageId && impl.InModes()
        invariant impl.CurrentVerdict(motion, control) == None
        invariant Timed(times, steps) && (times == [] || Later(times[|times| - 1], now))
        invariant previous == (if times == [] then now else times[|times| - 1])
        invariant (if times == [] then now else times[0]) == first
        invariant Ticked(old(impl.log), impl.log, times, motion, control)
        invariant !byControl && (motion ==> motionFrom == if times == [] then None else Some(|times| - 1))
        invariant CallbackFinishes(old(impl.inputs), control) ==>
                    times == [] && impl.inputs == old(impl.inputs) && impl.messageId == old(impl.messageId)
        decreases |impl.inputs|
      {
        var step := now - previous;
        TimedAppend(times, steps, now);
        ghost var earlier := times;
        times, steps := times + [now], steps + [step];
        assert times[..|times| - 1] == earlier;
        o, notFinished, byControl := AskCallbacks(control, motion);
        if o.Threw? {
          return;
        }
        if motion && !byControl {
          motionFrom := Some(|times| - 1);
        }
        if !notFinished {
          break;
        }
        previous := now;
        TickedAppend(old(impl.log), impl.log, earlier, motion, control, now);
        var state;
        o, state := UpdateAndCheck(motion, control);
        if o.Threw? {
          return;
        }
        now := state.messageId;
      }
      finish := Some(Finish(byControl, motionFrom));
      o := Done;
    }
  }

  // Inputs for which both findings about failures happen on a fresh robot.
  method FailedStartIsNotStopped(idle: RobotState, generator: GeneratorMode, controller: ControllerMode)
    returns (robot: Robot, o: Outcome, control: ActiveControl?)
    requires !Runs(idle.generator) && idle.controller != ExternalController
    requires generator != IdleGenerator && controller != OtherController
    requires generator == NoGenerator ==> controller == ExternalController
    ensures fresh(robot) && fresh(robot.impl) && o == Threw(NetworkError) && !robot.mutex.locked
    ensures robot.impl.log == [MoveSent(generator, controller)]
  {
    var impl := new RobotImpl(STARTED_THEN_CLOSED, idle, OtherController);
    robot := new Robot(impl);
    o, control := robot.StartControl(generator, controller);
  }

  method CancellationErrorIsDropped(idle: RobotState, generator: GeneratorMode, controller: ControllerMode)
    returns (robot: Robot, o: Outcome, ghost dropped: Outcome)
    requires !Runs(idle.generator) && idle.controller != ExternalController
    requires generator != IdleGenerator && controller != OtherController
    requires generator == NoGenerator ==> controller == ExternalController
    ensures fresh(robot) && fresh(robot.impl) && o == Threw(NetworkError) && !robot.mutex.locked
    ensures dropped == Threw(NetworkError) && !robot.impl.AtRest()
  {
    var impl := new RobotImpl(STARTED_AND_CONFIRMED + BROKEN_TWICE, idle, OtherController);
    robot := new Robot(impl);
    ghost var times, steps;
    o, dropped, times, steps := robot.Control(generator, controller);
  }
}
