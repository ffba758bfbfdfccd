/** The synchronised point-to-point generator: libfranka/examples/examples_common.cpp
    and franka_ros2/franka_example_controllers/src/motion_generator.cpp. */
module PointToPoint {
  import opened Reals
  import opened Synchronization
  import opened MotionProfile

  const JOINTS := 7

  // ----- All joints together -----

  ghost predicate ValidJoints(joints: seq<Joint>) { joints != [] && forall j :: j in joints ==> j.Valid() }

  // The profiles of the joints that move, for the common time; the others keep theirs.
  ghost predicate AreSynchronized(sqrt: real -> real, joints: seq<Joint>, before: seq<Profile>, after: seq<Profile>)
    requires IsSquareRoot(sqrt) && ValidJoints(joints) && |before| == |joints|
  {
    LongestIsMaximum(sqrt, joints);
    && |after| == |joints|
    && forall i :: 0 <= i < |joints| ==>
         after[i] == if joints[i].Moves() then Synchronized(sqrt, joints[i], Longest(sqrt, joints)) else before[i]
  }

  // The joints exactly at the threshold, which are not synchronised, had no profile before.
  ghost predicate Settled(joints: seq<Joint>, before: seq<Profile>)
    requires |before| == |joints|
  {
    forall i :: 0 <= i < |joints| && Abs(joints[i].deltaQ) == DELTA_Q_MOTION_FINISHED ==> before[i] == STILL
  }

  ghost predicate AllFinished(joints: seq<Joint>, profiles: seq<Profile>, time: real)
    requires |profiles| == |joints|
  {
    forall i :: 0 <= i < |joints| ==> JointFinished(joints[i], profiles[i], time)
  }

  lemma ProfileOfJoint(sqrt: real -> real, joints: seq<Joint>, before: seq<Profile>, profiles: seq<Profile>, i: nat)
    requires IsSquareRoot(sqrt) && ValidJoints(joints) && |before| == |joints|
             && AreSynchronized(sqrt, joints, before, profiles)
    requires i < |joints| && joints[i].Moves()
    ensures |profiles| == |joints|
    ensures var j, p := joints[i], profiles[i];
            && j.Valid() && p.tf == Longest(sqrt, joints) && p.speed <= j.dqMax
            && WellPhased(j.ddqMaxStart, j.ddqMaxGoal, Abs(j.deltaQ), p.speed, p.t1, p.t2, p.tf)
            && p.q1 == Sign(j.deltaQ) * (0.5 * p.speed * p.t1)
  {
    hide IsSquareRoot, ReachableSpeed, Synchronized, WellPhased, Sign, Joint.Moves, Longest, Joint.Valid, MinimumTime,
         Abs;
    LongestIsMaximum(sqrt, joints);
    assert joints[i] in joints;
    SynchronizedExactly(sqrt, joints[i], Longest(sqrt, joints));
  }

  // The generator reports that it is finished exactly from the common end time on.
  lemma {:induction false} FinishedExactlyTogether(sqrt: real -> real, joints: seq<Joint>, before: seq<Profile>,
      profiles: seq<Profile>, time: real)
    requires IsSquareRoot(sqrt) && ValidJoints(joints) && |before| == |joints|
             && AreSynchronized(sqrt, joints, before, profiles)
    requires Settled(joints, before) && time >= 0.0
    ensures AllFinished(joints, profiles, time) <==> time >= Longest(sqrt, joints)
  {
    hide IsSquareRoot, WellPhased, Sign, Synchronized;
    LongestIsMaximum(sqrt, joints);
    forall i | 0 <= i < |joints|
      ensures JointFinished(joints[i], profiles[i], time) <==> !joints[i].Moves() || time >= Longest(sqrt, joints)
    {
      var j, p := joints[i], profiles[i];
      if j.Moves() {
        ProfileOfJoint(sqrt, joints, before, profiles, i);
        PhaseOrder(j.ddqMaxStart, j.ddqMaxGoal, Abs(j.deltaQ), p);
        FinishedExactly(j, p, time);
      }
    }
    hide JointFinished, Longest, Joint.Moves;
  }

  // Every joint that moves goes monotonically from its start to its goal, at most
  // at its own maximal speed and acceleration, for any two times.
  lemma {:induction false} MovingJointIsLimited(sqrt: real -> real, joints: seq<Joint>, before: seq<Profile>,
      profiles: seq<Profile>, i: nat, s: real, t: real)
    requires IsSquareRoot(sqrt) && ValidJoints(joints) && |before| == |joints|
             && AreSynchronized(sqrt, joints, before, profiles)
    requires i < |joints| && joints[i].Moves() && 0.0 <= s <= t
    ensures |profiles| == |joints|
    ensures var j, p := joints[i], profiles[i];
            var sign, D := Sign(j.deltaQ), Abs(j.deltaQ);
            && 0.0 < p.t1 && p.t2 < p.tf && p.speed <= j.dqMax
            && var a, b := SampleAt(p, D, s), SampleAt(p, D, t);
               && DesiredDelta(j, p, s) == sign * a.way && DesiredDelta(j, p, t) == sign * b.way
               && 0.0 <= a.way <= b.way <= D
               && Smooth(p.speed, Max(j.ddqMaxStart, j.ddqMaxGoal), a, b)
    ensures DesiredDelta(joints[i], profiles[i], 0.0) == 0.0
    ensures t >= Longest(sqrt, joints) ==> DesiredDelta(joints[i], profiles[i], t) == joints[i].deltaQ
  {
    hide IsSquareRoot, WellPhased, Sign, Abs, DesiredDelta, SampleAt, Smooth, JointFinished, AreSynchronized,
         ValidJoints, Longest;
    ProfileOfJoint(sqrt, joints, before, profiles, i);
    var j, p := joints[i], profiles[i];
    PhaseOrder(j.ddqMaxStart, j.ddqMaxGoal, Abs(j.deltaQ), p);
    JointMotionIsLimited(j, p, s, t);
  }

  // The commanded motion starts at the start configuration exactly for the joints
  // whose way differs from the threshold: at the threshold itself a joint is not
  // synchronised, and is sent to its goal at once.
  lemma StartsWithoutJump(sqrt: real -> real, joints: seq<Joint>, before: seq<Profile>, profiles: seq<Profile>, i: nat)
    requires IsSquareRoot(sqrt) && ValidJoints(joints) && |before| == |joints|
             && AreSynchronized(sqrt, joints, before, profiles)
    requires i < |joints| && Settled(joints, before)
    ensures DesiredDelta(joints[i], profiles[i], 0.0) == 0.0 <==> Abs(joints[i].deltaQ) != DELTA_Q_MOTION_FINISHED
  {
    hide IsSquareRoot, WellPhased, Sign, Synchronized, Longest;
    if joints[i].Moves() {
      MovingJointIsLimited(sqrt, joints, before, profiles, i, 0.0, 0.0);
    }
  }

  // ----- The generator -----

  class MotionGenerator {
    const sqrt: real -> real
    const qGoal: seq<real>
    var dqMax: seq<real>
    var ddqMaxStart: seq<real>
    var ddqMaxGoal: seq<real>
    var qStart: seq<real>
    var deltaQ: seq<real>
    var dqMaxSync: seq<real>
    var t1Sync: seq<real>
    var t2Sync: seq<real>
    var tfSync: seq<real>
    var q1: seq<real>
    var time: real

    ghost predicate Sized()
      reads this
    {
      && |dqMax| == JOINTS && |ddqMaxStart| == JOINTS && |ddqMaxGoal| == JOINTS
      && |qGoal| == JOINTS && |qStart| == JOINTS && |deltaQ| == JOINTS
      && |dqMaxSync| == JOINTS && |t1Sync| == JOINTS && |t2Sync| == JOINTS && |tfSync| == JOINTS && |q1| == JOINTS
    }

    ghost predicate Valid()
      reads this
    {
      && Sized() && IsSquareRoot(sqrt) && time >= 0.0
      && (forall i :: 0 <= i < JOINTS ==> dqMax[i] > 0.0 && ddqMaxStart[i] > 0.0 && ddqMaxGoal[i] > 0.0)
    }

    ghost function Joints(): (js: seq<Joint>)
      reads this
      requires Sized()
      ensures |js| == JOINTS
    {
      seq(JOINTS, i requires 0 <= i < JOINTS && Sized() reads this =>
            Joint(dqMax[i], ddqMaxStart[i], ddqMaxGoal[i], deltaQ[i]))
    }

    ghost function Profiles(): (ps: seq<Profile>)
      reads this
      requires Sized()
      ensures |ps| == JOINTS
    {
      seq(JOINTS, i requires 0 <= i < JOINTS && Sized() reads this =>
            Profile(dqMaxSync[i], t1Sync[i], t2Sync[i], tfSync[i], q1[i]))
    }

    // The generator that takes its start configuration from the first robot state.
    constructor (sqrt: real -> real, speedFactor: real, qGoal: seq<real>)
      requires IsSquareRoot(sqrt) && 0.0 < speedFactor && |qGoal| == JOINTS
      ensures Valid() && this.sqrt == sqrt && this.qGoal == qGoal && time == 0.0
      ensures forall i :: 0 <= i < JOINTS ==> Profiles()[i] == STILL && !Joints()[i].Moves()
    {
      this.sqrt, this.qGoal, time := sqrt, qGoal, 0.0;
      dqMax := [2.0 * speedFactor, 2.0 * speedFactor, 2.0 * speedFactor, 2.0 * speedFactor,
                2.5 * speedFactor, 2.5 * speedFactor, 2.5 * speedFactor];
      ddqMaxStart := seq(JOINTS, _ => 5.0 * speedFactor);
      ddqMaxGoal := seq(JOINTS, _ => 5.0 * speedFactor);
      var zero := seq(JOINTS, _ => 0.0);
      qStart, deltaQ, dqMaxSync, t1Sync, t2Sync, tfSync, q1 := zero, zero, zero, zero, zero, zero, zero;
    }

    // The generator of the ROS 2 controllers, synchronised for a given start
    // configuration. It leaves the profiles of the joints that stay uninitialised.
    constructor FromStart(sqrt: real -> real, speedFactor: real, start: seq<real>, qGoal: seq<real>,
                          uninitialised: seq<Profile>)
      requires IsSquareRoot(sqrt) && 0.0 < speedFactor <= 1.0 && |start| == |qGoal| == |uninitialised| == JOINTS
      ensures Valid() && this.sqrt == sqrt && qStart == start && ValidJoints(Joints())
      ensures forall i :: 0 <= i < JOINTS ==> deltaQ[i] == qGoal[i] - start[i]
      ensures AreSynchronized(sqrt, Joints(), uninitialised, Profiles())
    {
      this.sqrt, this.qGoal, qStart, time := sqrt, qGoal, start, 0.0;
      deltaQ := seq(JOINTS, i requires 0 <= i < JOINTS => qGoal[i] - start[i]);
      dqMax := [2.0 * speedFactor, 2.0 * speedFactor, 2.0 * speedFactor, 2.0 * speedFactor,
                2.5 * speedFactor, 2.5 * speedFactor, 2.5 * speedFactor];
      ddqMaxStart := seq(JOINTS, _ => 5.0 * speedFactor);
      ddqMaxGoal := seq(JOINTS, _ => 5.0 * speedFactor);
      dqMaxSync := seq(JOINTS, i requires 0 <= i < JOINTS => uninitialised[i].speed);
      t1Sync := seq(JOINTS, i requires 0 <= i < JOINTS => uninitialised[i].t1);
      t2Sync := seq(JOINTS, i requires 0 <= i < JOINTS => uninitialised[i].t2);
      tfSync := seq(JOINTS, i requires 0 <= i < JOINTS => uninitialised[i].tf);
      q1 := seq(JOINTS, i requires 0 <= i < JOINTS => uninitialised[i].q1);
      new;
      hide AreSynchronized, IsSquareRoot;
      assert Profiles() == uninitialised;
      CalculateSynchronizedValues();
    }

    method CalculateSynchronizedValues()
      requires Valid()
      modifies this`dqMaxSync, this`t1Sync, this`t2Sync, this`tfSync, this`q1
      ensures Valid() && Joints() == old(Joints())
      ensures ValidJoints(Joints()) && AreSynchronized(sqrt, Joints(), old(Profiles()), Profiles())
    {
      hide IsSquareRoot, MinimumTime, Synchronized, Joint.Moves, Longest;
      ghost var joints, before := Joints(), Profiles();
      assert ValidJoints(joints) by {
        assert forall i :: 0 <= i < JOINTS ==> joints[i].Valid();
      }
      var longest := CommonTime();
      LongestIsMaximum(sqrt, joints);
      for i := 0 to JOINTS
        invariant Valid() && Joints() == joints
        invariant forall k :: 0 <= k < JOINTS ==>
                    Profiles()[k]
                    == if k < i && joints[k].Moves() then Synchronized(sqrt, joints[k], longest) else before[k]
      {
        var j := Joint(dqMax[i], ddqMaxStart[i], ddqMaxGoal[i], deltaQ[i]);
        assert j == joints[i];
        if j.Moves() {
          SynchronizeJoint(i, longest);
        }
      }
    }

    method MinimumTimes() returns (tf: seq<real>)
      requires Valid()
      ensures |tf| == JOINTS && forall i :: 0 <= i < JOINTS ==>
                Joints()[i].Valid() && tf[i] == MinimumTime(sqrt, Joints()[i])
    {
      hide TooShortToCruise, ReachableSquare, Duration, IsSquareRoot;
      tf := seq(JOINTS, _ => 0.0);
      for i := 0 to JOINTS
        invariant |tf| == JOINTS
        invariant forall k :: 0 <= k < JOINTS ==>
                    Joints()[k].Valid() && tf[k] == if k < i then MinimumTime(sqrt, Joints()[k]) else 0.0
      {
        var j := Joint(dqMax[i], ddqMaxStart[i], ddqMaxGoal[i], deltaQ[i]);
        assert j == Joints()[i] && j.Valid();
        if Abs(deltaQ[i]) > DELTA_Q_MOTION_FINISHED {
          var reach := dqMax[i];
          if TooShortToCruise(j) {
            reach := sqrt(ReachableSquare(j));
          }
          ReachIsPositive(sqrt, j);
          tf := tf[i := Duration(ddqMaxStart[i], ddqMaxGoal[i], deltaQ[i], reach)];
        }
      }
    }

    method CommonTime() returns (longest: real)
      requires Valid()
      ensures ValidJoints(Joints()) && longest == Longest(sqrt, Joints())
    {
      hide IsSquareRoot, MinimumTime;
      var tf := MinimumTimes();
      ghost var joints := Joints();
      longest := tf[0];
      for i := 1 to JOINTS
        invariant longest == Longest(sqrt, joints[..i])
      {
        longest := Max(longest, tf[i]);
        assert joints[..i + 1][..i] == joints[..i];
      }
      assert joints[..JOINTS] == joints;
    }

    // The synchronisation of one joint that moves.
    method SynchronizeJoint(i: nat, longest: real)
      requires Valid() && i < JOINTS && Joints()[i].Moves() && MinimumTime(sqrt, Joints()[i]) <= longest
      modifies this`dqMaxSync, this`t1Sync, this`t2Sync, this`tfSync, this`q1
      ensures Valid() && Joints() == old(Joints())
      ensures Profiles() == old(Profiles())[i := Synchronized(sqrt, Joints()[i], longest)]
    {
      hide IsSquareRoot, RawDiscriminant, SmallerSolution, ReachableSpeed, ReachableSquare, HalfRamp, MinimumTime,
           ProfileAtSpeed;
      var j := Joint(dqMax[i], ddqMaxStart[i], ddqMaxGoal[i], deltaQ[i]);
      assert j == Joints()[i];
      SynchronizedSpeedFacts(sqrt, j, longest);
      var delta := RawDiscriminant(j, longest);
      if delta < 0.0 {
        delta := 0.0;
      }
      var v := SmallerSolution(j, longest, sqrt(delta));
      assert v == SynchronizedSpeed(sqrt, j, longest);
      var p := ProfileAtSpeed(j, v);
      dqMaxSync, t1Sync, tfSync := dqMaxSync[i := p.speed], t1Sync[i := p.t1], tfSync[i := p.tf];
      t2Sync, q1 := t2Sync[i := p.t2], q1[i := p.q1];
      assert Profiles()[i] == Synchronized(sqrt, j, longest);
    }

    method CalculateDesiredValues(at: real) returns (desired: seq<real>, finished: bool)
      requires Sized() && at >= 0.0
      ensures |desired| == JOINTS
      ensures forall i :: 0 <= i < JOINTS ==> desired[i] == DesiredDelta(Joints()[i], Profiles()[i], at)
      ensures finished <==> AllFinished(Joints(), Profiles(), at)
    {
      hide DesiredDelta;
      desired, finished := [], true;
      for i := 0 to JOINTS
        invariant |desired| == i
        invariant forall k :: 0 <= k < i ==> desired[k] == DesiredDelta(Joints()[k], Profiles()[k], at)
        invariant finished <==> forall k :: 0 <= k < i ==> JointFinished(Joints()[k], Profiles()[k], at)
      {
        var j := Joint(dqMax[i], ddqMaxStart[i], ddqMaxGoal[i], deltaQ[i]);
        var p := Profile(dqMaxSync[i], t1Sync[i], t2Sync[i], tfSync[i], q1[i]);
        assert j == Joints()[i] && p == Profiles()[i];
        desired := desired + [DesiredDelta(j, p, at)];
        if !JointFinished(j, p, at) {
          finished := false;
        }
      }
    }

    // The callback of the control loop: the first call, with period zero, starts the motion.
    method Call(q: seq<real>, period: real) returns (positions: seq<real>, finished: bool)
      requires Valid() && |q| == JOINTS && period >= 0.0
      modifies this
      ensures Valid() && time == old(time) + period
      ensures dqMax == old(dqMax) && ddqMaxStart == old(ddqMaxStart) && ddqMaxGoal == old(ddqMaxGoal)
      ensures ValidJoints(Joints())
      ensures if time == 0.0 then
                && qStart == q && (forall i :: 0 <= i < JOINTS ==> deltaQ[i] == qGoal[i] - q[i])
                && AreSynchronized(sqrt, Joints(), old(Profiles()), Profiles())
              else qStart == old(qStart) && Joints() == old(Joints()) && Profiles() == old(Profiles())
      ensures |positions| == JOINTS
      ensures forall i :: 0 <= i < JOINTS ==> positions[i] == qStart[i] + DesiredDelta(Joints()[i], Profiles()[i], time)
      ensures finished <==> AllFinished(Joints(), Profiles(), time)
    {
      hide DesiredDelta, AreSynchronized, AllFinished, IsSquareRoot;
      ghost var before := Profiles();
      time := time + period;
      if time == 0.0 {
        qStart := q;
        deltaQ := seq(JOINTS, i requires 0 <= i < JOINTS && |qGoal| == JOINTS => qGoal[i] - q[i]);
        assert Profiles() == before;
        CalculateSynchronizedValues();
      }
      var desired: seq<real>;
      desired, finished := CalculateDesiredValues(time);
      positions := seq(JOINTS, i requires 0 <= i < JOINTS && |qStart| == JOINTS && |desired| == JOINTS reads this =>
                         qStart[i] + desired[i]);
    }
  }

  // When the motion is finished, every joint is at its goal, or stayed where it
  // was because its goal is less than the threshold away.
  lemma FinishedAtGoal(sqrt: real -> real, joints: seq<Joint>, before: seq<Profile>, profiles: seq<Profile>, i: nat,
                       time: real)
    requires IsSquareRoot(sqrt) && ValidJoints(joints) && |before| == |joints|
             && AreSynchronized(sqrt, joints, before, profiles)
    requires Settled(joints, before) && time >= 0.0 && i < |joints| && AllFinished(joints, profiles, time)
    ensures Abs(joints[i].deltaQ - DesiredDelta(joints[i], profiles[i], time)) < DELTA_Q_MOTION_FINISHED
    ensures Abs(joints[i].deltaQ) >= DELTA_Q_MOTION_FINISHED ==>
              DesiredDelta(joints[i], profiles[i], time) == joints[i].deltaQ
  {
    hide IsSquareRoot, WellPhased, Sign, Synchronized, Longest;
    FinishedExactlyTogether(sqrt, joints, before, profiles, time);
    if joints[i].Moves() {
      MovingJointIsLimited(sqrt, joints, before, profiles, i, time, time);
    }
  }
}
