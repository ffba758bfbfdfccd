/** Every program that uses one robot: any sequence of starting, using, finishing and destroying controls. */
module ControlSessions {
  import opened Options
  import opened RobotMessages
  import opened RobotImplementation
  import opened MotionLifecycle

  // One call by the program; which picks one of the controls it was given.
  datatype Call =
    | Start(generator: GeneratorMode, controller: ControllerMode)
    | RunLoop(generator: GeneratorMode, controller: ControllerMode)
    | WriteMotion(which: nat, finished: bool, torques: Option<bool>, valid: bool)
    | WriteTorques(which: nat, finished: bool, valid: bool)
    | Read(which: nat)
    | Destroy(which: nat)

  predicate Startable(generator: GeneratorMode, controller: ControllerMode) {
    generator != IdleGenerator && controller != OtherController
        && (generator == NoGenerator ==> controller == ExternalController)
  }

  // A start is refused while another control holds the lock or the robot still moves.
  predicate StartedFrom(o: Outcome, locked: bool, running: bool) {
    (locked ==> o == Threw(InvalidOperation)) && (!locked && running ==> o == Threw(ControlError))
  }

  class Program {
    const robot: Robot
    var controls: seq<ActiveControl>

    ghost predicate Valid()
      reads this, robot, robot.mutex, robot.impl, controls
    {
      && robot.mutex.Consistent()
      && (forall c :: c in controls ==> c.impl == robot.impl && c.mutex == robot.mutex && c.Valid())
      && (robot.mutex.holder != null ==> robot.mutex.holder in controls)
    }

    ghost function Given(): set<object>
      reads this
    {
      set c | c in controls
    }

    constructor (robot: Robot)
      requires robot.Valid() && !robot.mutex.locked
      ensures Valid() && this.robot == robot && controls == []
    {
      this.robot, controls := robot, [];
    }

    // The mutex is held exactly while one of the controls is unfinished, and there is
    // at most one such control.
    lemma LockedExactlyWhileUnfinished()
      requires Valid()
      ensures robot.mutex.locked <==> exists c :: c in controls && !c.controlFinished && !c.destroyed
      ensures forall c, d :: c in controls && d in controls && c.ownsLock && d.ownsLock ==> c == d
      ensures forall c :: c in controls && c.ownsLock ==>
                robot.impl.currentMoveMotionGeneratorMode == c.generator
                    && robot.impl.currentMoveControllerMode == c.controller
    {
      if robot.mutex.locked {
        assert robot.mutex.holder in controls && robot.mutex.holder.Valid();
      }
    }

    method StartControl(generator: GeneratorMode, controller: ControllerMode) returns (o: Outcome)
      requires Valid() && Startable(generator, controller)
      modifies this`controls, robot.mutex, robot.impl
      ensures Valid() && old(controls) <= controls && fresh(Given() - old(Given()))
      ensures o.Threw? ==> !o.e.Rejected?
      ensures |controls| == |old(controls)| + if o.Done? then 1 else 0
      ensures o.Done? ==> robot.mutex.locked && robot.mutex.holder == controls[|controls| - 1]
      ensures StartedFrom(o, old(robot.mutex.locked), old(robot.impl.MotionGeneratorRunning()
                                                          || robot.impl.ControllerRunning()))
    {
      var control;
      o, control := robot.StartControl(generator, controller);
      if control != null {
        controls := controls + [control];
      }
    }

    method RunLoop(generator: GeneratorMode, controller: ControllerMode) returns (o: Outcome)
      requires Valid() && Startable(generator, controller)
      modifies robot.mutex, robot.impl
      ensures Valid() && (o.Threw? ==> !o.e.Rejected?)
      ensures robot.mutex.locked == old(robot.mutex.locked)
      ensures StartedFrom(o, old(robot.mutex.locked), old(robot.impl.MotionGeneratorRunning()
                                                          || robot.impl.ControllerRunning()))
      ensures o.Done? ==> robot.impl.AtRest()
    {
      ghost var dropped, times, steps;
      o, dropped, times, steps := robot.Control(generator, controller);
    }

    method WriteMotion(c: ActiveControl, finished: bool, torques: Option<bool>, valid: bool) returns (o: Outcome)
      requires Valid() && c in controls
      modifies robot.mutex, robot.impl, c
      ensures Valid() && (o.Threw? ==> !o.e.Rejected?)
      ensures c.destroyed == old(c.destroyed)
      ensures c.generator != NoGenerator && !old(c.destroyed) && o.Done? ==>
                !old(c.controlFinished) && c.controlFinished == (finished || torques == Some(true))
    {
      o := Done;
      if c.generator != NoGenerator && !c.destroyed {
        o := c.WriteMotion(finished, torques, valid);
        OthersStayValid(c);
      }
    }

    method WriteTorques(c: ActiveControl, finished: bool, valid: bool) returns (o: Outcome)
      requires Valid() && c in controls
      modifies robot.mutex, robot.impl, c
      ensures Valid() && (o.Threw? ==> !o.e.Rejected?)
      ensures c.destroyed == old(c.destroyed)
      ensures c.generator == NoGenerator && !old(c.destroyed) && o.Done? ==>
                !old(c.controlFinished) && c.controlFinished == finished
    {
      o := Done;
      if c.generator == NoGenerator && !c.destroyed {
        o := c.WriteTorques(finished, valid);
        OthersStayValid(c);
      }
    }

    method Read(c: ActiveControl) returns (o: Outcome)
      requires Valid() && c in controls
      modifies robot.mutex, robot.impl, c
      ensures Valid() && (o.Threw? ==> !o.e.Rejected?)
      ensures c.destroyed == old(c.destroyed)
      ensures !old(c.destroyed) ==> |c.readTimes| == |old(c.readTimes)| + if o.Done? then 1 else 0
    {
      o := Done;
      if !c.destroyed {
        var state, step;
        o, state, step := c.ReadOnce();
        OthersStayValid(c);
      }
    }

    method Destroy(c: ActiveControl) returns (o: Outcome)
      requires Valid() && c in controls
      modifies robot.mutex, robot.impl, c
      ensures Valid() && (o.Threw? ==> !o.e.Rejected?)
      ensures o.Done? ==> c.destroyed && !c.ownsLock
    {
      o := Done;
      if !c.destroyed {
        var alive;
        o, alive := c.Destroy();
        OthersStayValid(c);
      }
    }

    // An operation of one control keeps the others valid.
    twostate lemma OthersStayValid(c: ActiveControl)
      requires old(Valid()) && c in old(controls) && controls == old(controls)
      requires c.Valid() && c.LeavesOthersAlone()
      requires forall d :: d in controls && d != c ==> unchanged(d)
      ensures Valid()
    {
      forall d | d in controls && d != c ensures d.Valid() {
        assert old(d.Valid());
      }
    }

    // What a call that returns normally has done, and when a start is refused.
    ghost predicate Performed(call: Call, o: Outcome, before: seq<ActiveControl>, locked: bool, running: bool)
      reads this, robot, robot.mutex, robot.impl, controls
    {
      match call
      case Start(g, k) =>
        Startable(g, k) ==>
          StartedFrom(o, locked, running) && |controls| == |before| + if o.Done? then 1 else 0
      case RunLoop(g, k) =>
        Startable(g, k) ==> StartedFrom(o, locked, running) && (o.Done? ==> robot.impl.AtRest())
      case WriteMotion(i, finished, torques, valid) =>
        i < |before| && before[i] in controls && before[i].generator != NoGenerator && !before[i].destroyed
            && o.Done? ==>
          before[i].controlFinished == (finished || torques == Some(true))
      case WriteTorques(i, finished, valid) =>
        i < |before| && before[i] in controls && before[i].generator == NoGenerator && !before[i].destroyed
            && o.Done? ==>
          before[i].controlFinished == finished
      case Read(i) =>
        i < |before| && before[i] in controls && !before[i].destroyed && o.Done? ==> before[i].readTimes != []
      case Destroy(i) =>
        i < |before| && before[i] in controls && o.Done? ==> before[i].destroyed && !before[i].ownsLock
    }

    // Whatever the program does next, and whatever the robot does: the invariant is
    // kept, and no command is refused for not fitting the current move.
    method Perform(call: Call) returns (o: Outcome)
      requires Valid()
      modifies this`controls, robot.mutex, robot.impl, Given()
      ensures Valid() && old(controls) <= controls && fresh(Given() - old(Given()))
      ensures o.Threw? ==> !o.e.Rejected?
      ensures Performed(call, o, old(controls), old(robot.mutex.locked),
                        old(robot.impl.MotionGeneratorRunning() || robot.impl.ControllerRunning()))
    {
      o := Done;
      match call
      case Start(g, k) =>
        if Startable(g, k) {
          o := StartControl(g, k);
        }
      case RunLoop(g, k) =>
        if Startable(g, k) {
          o := RunLoop(g, k);
        }
      case WriteMotion(i, finished, torques, valid) =>
        if i < |controls| {
          o := WriteMotion(controls[i], finished, torques, valid);
        }
      case WriteTorques(i, finished, valid) =>
        if i < |controls| {
          o := WriteTorques(controls[i], finished, valid);
        }
      case Read(i) =>
        if i < |controls| {
          o := Read(controls[i]);
        }
      case Destroy(i) =>
        if i < |controls| {
          o := Destroy(controls[i]);
        }
    }

    // So it is for every sequence of calls.
    method PerformAll(calls: seq<Call>) returns (outcomes: seq<Outcome>)
      requires Valid()
      modifies this`controls, robot.mutex, robot.impl, Given()
      ensures Valid()
      ensures |outcomes| == |calls| && forall o <- outcomes :: o.Threw? ==> !o.e.Rejected?
      ensures robot.mutex.locked <==> exists c :: c in controls && !c.controlFinished && !c.destroyed
      decreases |calls|
    {
      if calls == [] {
        LockedExactlyWhileUnfinished();
        outcomes := [];
      } else {
        var o := Perform(calls[0]);
        outcomes := PerformAll(calls[1..]);
        outcomes := [o] + outcomes;
      }
    }
  }
}
