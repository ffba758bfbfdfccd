/** Reception of robot states: libfranka/src/robot_impl.cpp, receiveRobotState and updateState. */
module RobotMessages {
  import opened Options

  datatype GeneratorMode =
    | IdleGenerator | JointPosition | JointVelocity | CartesianPosition | CartesianVelocity | NoGenerator

  datatype ControllerMode = JointImpedance | CartesianImpedance | ExternalController | OtherController

  datatype RobotMode = OtherMode | IdleMode | MoveMode | Guiding | Reflex | UserStopped | AutomaticErrorRecovery

  datatype Status =
    | Success | MotionStarted | Preempted | PreemptedDueToSafety | RejectedDueToSafety | NotPossibleRejected
    | StartAtSingularPoseRejected | InvalidArgumentRejected | ReflexAborted | EmergencyAborted
    | InputErrorAborted | Aborted | UnknownStatus

  datatype RobotState = RobotState(messageId: nat, robotMode: RobotMode, generator: GeneratorMode,
                                   controller: ControllerMode)

  // What the outside world does next: a datagram is there, or nothing is; the
  // command connection delivers a response, is quiet, or is closed; a user
  // callback returns, with its two flags, or throws.
  datatype Input =
    | Datagram(state: RobotState) | Nothing
    | Response(status: Status) | Closed
    | Callback(controlFinished: bool, motionFinished: bool) | CallbackThrows

  // How a reception ends, with the inputs after it: with a state; with a state
  // of which nothing but the message id was ever set; or with a network error.
  datatype Reception =
    | Received(state: RobotState, rest: seq<Input>) | Uninitialized(rest: seq<Input>) | Failed(rest: seq<Input>)

  // The last message id is copied into 32 bits before waiting.
  const ID_LIMIT := 0x1_0000_0000

  // The states already on the socket: the newest of them, if it is newer than last.
  function Drain(inputs: seq<Input>, last: nat, best: Option<RobotState>): (Option<RobotState>, seq<Input>) {
    if inputs == [] then (best, inputs)
    else if !inputs[0].Datagram? then (best, inputs[1..])
    else
      var s := inputs[0].state;
      Drain(inputs[1..], last, if s.messageId > Newest(last, best) then Some(s) else best)
  }

  // The first newer state that is waited for, unless waiting times out.
  function Await(inputs: seq<Input>, last: nat): (Option<RobotState>, seq<Input>) {
    if inputs == [] then (None, inputs)
    else if !inputs[0].Datagram? then (None, inputs[1..])
    else if inputs[0].state.messageId > last then (Some(inputs[0].state), inputs[1..])
    else Await(inputs[1..], last)
  }

  // Waits while the newest id equals the 32-bit copy of the last one. A socket
  // without any further input fails.
  function Receive(inputs: seq<Input>, last: nat): Reception {
    var copy := last % ID_LIMIT;
    var (best, rest) := Drain(inputs, last, None);
    if inputs == [] then Failed(inputs)
    else if best.Some? then Received(best.value, rest)
    else if last != copy then Uninitialized(rest)
    else
      var (first, after) := Await(rest, last);
      if first.Some? then Received(first.value, after) else Failed(after)
  }

  // How many datagrams are on the socket.
  function Available(inputs: seq<Input>): nat {
    if inputs == [] || !inputs[0].Datagram? then 0 else 1 + Available(inputs[1..])
  }

  function Newest(id: nat, best: Option<RobotState>): nat { if best.Some? then best.value.messageId else id }

  // Draining returns the maximum of what was on the socket.
  lemma {:induction false} DrainIsMaximum(inputs: seq<Input>, last: nat, best: Option<RobotState>)
    requires best.Some? ==> best.value.messageId > last
    ensures var (r, rest) := Drain(inputs, last, best);
            var n := Available(inputs);
            && n <= |inputs| && rest == (if n == |inputs| then [] else inputs[n + 1..])
            && (forall i :: 0 <= i < n ==> inputs[i].Datagram? && inputs[i].state.messageId <= Newest(last, r))
            && Newest(last, best) <= Newest(last, r)
            && (r.Some? ==>
                  r.value.messageId > last && (r == best || exists i :: 0 <= i < n && inputs[i] == Datagram(r.value)))
            && (r.None? ==> best.None?)
  {
    if inputs != [] && inputs[0].Datagram? {
      var s, tail := inputs[0].state, inputs[1..];
      var next := if s.messageId > Newest(last, best) then Some(s) else best;
      DrainIsMaximum(tail, last, next);
      var (r, rest) := Drain(tail, last, next);
      var n := Available(tail);
      assert forall i :: 1 <= i < n + 1 ==> inputs[i] == tail[i - 1];
      if r.Some? && r != best {
        if r == next {
          assert inputs[0] == Datagram(r.value);
        } else {
          var i :| 0 <= i < n && tail[i] == Datagram(r.value);
          assert inputs[i + 1] == Datagram(r.value);
        }
      }
    }
  }

  ghost predicate FirstNewer(inputs: seq<Input>, last: nat, k: int) {
    && 0 <= k < |inputs| && inputs[k].Datagram? && inputs[k].state.messageId > last
    && forall i :: 0 <= i < k ==> inputs[i].Datagram? && inputs[i].state.messageId <= last
  }

  lemma {:induction false} AwaitIsFirstNewer(inputs: seq<Input>, last: nat)
    ensures var (r, rest) := Await(inputs, last);
            && |rest| <= |inputs| && (inputs != [] ==> |rest| < |inputs|)
            && (r.Some? ==>
                  r.value.messageId > last && exists k :: FirstNewer(inputs, last, k) && inputs[k] == Datagram(r.value))
  {
    if inputs != [] && inputs[0].Datagram? {
      if inputs[0].state.messageId <= last {
        AwaitIsFirstNewer(inputs[1..], last);
        var (r, rest) := Await(inputs[1..], last);
        if r.Some? {
          var k :| FirstNewer(inputs[1..], last, k) && inputs[1..][k] == Datagram(r.value);
          assert forall i :: 1 <= i < k + 1 ==> inputs[i] == inputs[1..][i - 1];
          assert FirstNewer(inputs, last, k + 1) && inputs[k + 1] == Datagram(r.value);
        }
      } else {
        assert FirstNewer(inputs, last, 0) && inputs[0] == Datagram(inputs[0].state);
      }
    }
  }

  // A state that was really received is newer than everything before, and a
  // reception consumes input.
  lemma ReceivedIsNewer(inputs: seq<Input>, last: nat)
    ensures var r := Receive(inputs, last);
            && |r.rest| <= |inputs| && (!r.Failed? ==> |r.rest| < |inputs|)
            && (r.Received? ==> r.state.messageId > last)
  {
    DrainIsMaximum(inputs, last, None);
    var (best, rest) := Drain(inputs, last, None);
    AwaitIsFirstNewer(rest, last);
  }

  // A reception that returns has received a newer state if and only if the last
  // id fits into 32 bits or a newer state was already on the socket.
  lemma NewerExactly(inputs: seq<Input>, last: nat)
    requires !Receive(inputs, last).Failed?
    ensures Receive(inputs, last).Received? <==> last < ID_LIMIT || Drain(inputs, last, None).0.Some?
  {
  }

  // So after 2^32 states a quiet socket is enough to get no state at all.
  lemma QuietSocketYieldsNoState(last: nat, later: seq<Input>)
    ensures Receive([Nothing] + later, last).Uninitialized? <==> last >= ID_LIMIT
  {
    assert ([Nothing] + later)[1..] == later;
  }

  // ----- Runs of receptions -----

  // The id of the last state is then returned once more.
  lemma IdIsRepeated(later: seq<Input>)
    ensures ReceivedIds([Nothing] + later, ID_LIMIT) != [] && ReceivedIds([Nothing] + later, ID_LIMIT)[0] == ID_LIMIT
  {
    QuietSocketYieldsNoState(ID_LIMIT, later);
  }

  function IdAfter(r: Reception, last: nat): nat { if r.Received? then r.state.messageId else last }

  // The message ids of a run of receptions, until one fails or the inputs end.
  function ReceivedIds(inputs: seq<Input>, last: nat): seq<nat>
    decreases |inputs|
  {
    ReceivedIsNewer(inputs, last);
    var r := Receive(inputs, last);
    if r.Failed? then [] else [IdAfter(r, last)] + ReceivedIds(r.rest, IdAfter(r, last))
  }

  // Never older, and newer than every id that fits into 32 bits.
  predicate Later(last: nat, id: nat) { last <= id && (last < ID_LIMIT ==> last < id) }

  ghost predicate Chronological(ids: seq<nat>) { forall i, j :: 0 <= i < j < |ids| ==> Later(ids[i], ids[j]) }

  ghost predicate Increasing(ids: seq<nat>) { forall i, j :: 0 <= i < j < |ids| ==> ids[i] < ids[j] }

  // Over any run, with reordered, duplicated or stale datagrams, no id is older
  // than one before, nor equal to one before that fits into 32 bits.
  lemma {:induction false} ReceivedIdsIncrease(inputs: seq<Input>, last: nat)
    ensures Chronological([last] + ReceivedIds(inputs, last))
    decreases |inputs|
  {
    ReceivedIsNewer(inputs, last);
    var r := Receive(inputs, last);
    if !r.Failed? {
      var id := IdAfter(r, last);
      assert Later(last, id) by { NewerExactly(inputs, last); }
      ReceivedIdsIncrease(r.rest, id);
      Prepend(last, id, ReceivedIds(r.rest, id));
    }
  }

  lemma Prepend(last: nat, id: nat, ids: seq<nat>)
    requires Later(last, id) && Chronological([id] + ids)
    ensures Chronological([last] + ([id] + ids))
  {
    var tail := [id] + ids;
    var all := [last] + tail;
    forall i, j | 0 <= i < j < |all| ensures Later(all[i], all[j]) {
      assert tail[0] == id && all[j] == tail[j - 1];
    }
  }

  // Before every reception of the run the last id fits into 32 bits, or a newer
  // state is on the socket already.
  predicate NeverStuck(inputs: seq<Input>, last: nat)
    decreases |inputs|
  {
    ReceivedIsNewer(inputs, last);
    var r := Receive(inputs, last);
    r.Failed? || ((last < ID_LIMIT || Drain(inputs, last, None).0.Some?) && NeverStuck(r.rest, IdAfter(r, last)))
  }

  // The ids strictly increase over a run if and only if that holds throughout.
  lemma {:induction false} IncreaseExactly(inputs: seq<Input>, last: nat)
    ensures Increasing([last] + ReceivedIds(inputs, last)) <==> NeverStuck(inputs, last)
    decreases |inputs|
  {
    ReceivedIsNewer(inputs, last);
    var r := Receive(inputs, last);
    if !r.Failed? {
      NewerExactly(inputs, last);
      var id := IdAfter(r, last);
      var tail := [id] + ReceivedIds(r.rest, id);
      IncreaseExactly(r.rest, id);
      assert [last] + ReceivedIds(inputs, last) == [last] + tail;
      IncreasingFrom(last, tail);
    }
  }

  lemma IncreasingFrom(last: nat, tail: seq<nat>)
    requires tail != []
    ensures Increasing([last] + tail) <==> last < tail[0] && Increasing(tail)
  {
    var all := [last] + tail;
    if Increasing(all) {
      assert all[0] < all[1];
      forall i, j | 0 <= i < j < |tail| ensures tail[i] < tail[j] {
        assert tail[i] == all[i + 1] && tail[j] == all[j + 1];
      }
    }
    if last < tail[0] && Increasing(tail) {
      forall i, j | 0 <= i < j < |all| ensures all[i] < all[j] {
        assert all[j] == tail[j - 1];
      }
    }
  }

  // ----- Time steps -----

  // The time since the last read, zero for the first; as Duration's unsigned
  // subtraction computes it, so it would wrap around if time went backwards.
  function TimeSteps(ids: seq<nat>): (steps: seq<int>)
    ensures |steps| == |ids|
  {
    seq(|ids|, i requires 0 <= i < |ids| => StepAt(ids, i))
  }

  function StepAt(ids: seq<nat>, i: nat): int
    requires i < |ids|
  {
    var now: int := ids[i];
    if i == 0 then 0 else now - ids[i - 1]
  }

  function Sum(steps: seq<int>): int {
    if steps == [] then 0 else Sum(steps[..|steps| - 1]) + steps[|steps| - 1]
  }

  // No time step underflows, the first is zero, and a later one is positive if
  // the id before it fits into 32 bits.
  ghost predicate StepsForward(ids: seq<nat>, steps: seq<int>) {
    && |steps| == |ids|
    && (forall i :: 0 <= i < |steps| ==> steps[i] >= 0 && (i == 0 ==> steps[i] == 0))
    && (forall i :: 0 <= i < |steps| && steps[i] == 0 ==> i == 0 || ids[i - 1] >= ID_LIMIT)
  }

  lemma TimeStepsForward(ids: seq<nat>)
    requires Chronological(ids)
    ensures StepsForward(ids, TimeSteps(ids))
  {
    var steps := TimeSteps(ids);
    forall i | 0 < i < |ids| ensures steps[i] >= 0 && (steps[i] == 0 ==> ids[i - 1] >= ID_LIMIT) {
      assert Later(ids[i - 1], ids[i]);
    }
  }

  // Together the time steps are the time from the first to the last read.
  lemma {:induction false} TimeStepsTelescope(ids: seq<nat>)
    requires ids != []
    ensures Sum(TimeSteps(ids)) + ids[0] == ids[|ids| - 1]
  {
    var n := |ids| - 1;
    assert TimeSteps(ids)[..n] == TimeSteps(ids[..n]);
    if n > 0 {
      TimeStepsTelescope(ids[..n]);
    }
  }

  // From the first read of a control on.
  lemma ReadTimesAddUp(inputs: seq<Input>, last: nat)
    requires ReceivedIds(inputs, last) != []
    ensures var ids := ReceivedIds(inputs, last);
            var steps := TimeSteps(ids);
            StepsForward(ids, steps) && Sum(steps) + ids[0] == ids[|ids| - 1]
  {
    hide ReceivedIds;
    ReceivedIdsIncrease(inputs, last);
    var ids := ReceivedIds(inputs, last);
    ChronologicalTail([last] + ids, ids);
    TimeStepsForward(ids);
    TimeStepsTelescope(ids);
  }

  lemma ChronologicalTail(all: seq<nat>, ids: seq<nat>)
    requires Chronological(all) && |ids| <= |all| && all[|all| - |ids|..] == ids
    ensures Chronological(ids)
  {
    var k := |all| - |ids|;
    assert forall i :: 0 <= i < |ids| ==> ids[i] == all[k + i];
  }
}
