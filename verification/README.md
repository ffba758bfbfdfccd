# A verified model of the motion-critical core of libfranka and franka_ros2

The robot arm of the Franka Control Interface receives a command every millisecond.
What keeps it from being driven too fast, too abruptly or against a mechanical stop, and
what keeps the client's and the robot's view of a motion together, is spread over a few
hundred lines of client code. This project models that code in Dafny and proves what it
guarantees over whole runs, for every callback, every robot and every network.

## What is modelled

| files | subject |
|---|---|
| `Options`, `Reals` | optional values and exact real arithmetic |
| `RateLimiter` | the scalar limiter: jerk, then acceleration, then velocity; the torque rate limiter |
| `JointStops`, `ControlLoop`, `JointSessions`, `Fr3Joints` | the position-dependent velocity limits of a joint, the loop that feeds them to the limiter, whole sessions of that loop, and the constants of the FR3 |
| `VectorLimiter`, `Rotations`, `PoseLimiter`, `PoseSessions` | the limiters for Cartesian velocities and poses, with the Rodrigues update, and whole sessions of the pose interface |
| `FilterSessions` | the low-pass filters, and whole sessions with the limiter off, which is the default |
| `Synchronization`, `MotionProfile`, `PointToPoint` | the point-to-point generator in both copies |
| `TcpFrames`, `Network` | the command connection: reassembly of frames and responses by command id |
| `RobotMessages`, `RobotImplementation`, `MotionLifecycle`, `ControlSessions` | reception of states, starting, writing, finishing and cancelling motions, the control lock, the control loop, and every program that uses them |
| `HardwareRobot`, `HardwareInterface` | the ros2_control side: claims, mode switches, seeding of commands |
| `LoadCombination`, `InertiaCache` | combining end effector and load; the cached inertia of the model |
| `SwerveKinematics`, `VelocityFilter`, `LinkTraversal` | the mobile base, the moving average, the list of links |

Numbers are exact reals. The square root is any function that is non-negative and squares back
to its argument; sine and cosine are any pair on the unit circle; `atan2` is any function that
gives the direction of a non-zero vector. So the theorems hold for all of them at once. The
robot, the network, user callbacks and library exceptions are arbitrary: they appear as inputs
that the theorems quantify over.

The limiters are proved under the assumption the code makes: the robot reports the last
limited command as its desired position, velocity and acceleration.

## Findings

* **The first command of the position, pose and elbow interfaces is not limited.** The loop
  takes the first output as its own reference, so it is compared with itself and not with the robot.
  `JointSessions.FirstPositionInsideExactly`: the first position sent lies between the
  stops if and only if the first output exceeds them by at most about half a microradian, wherever the
  robot stands; `Fr3Joints.FirstCommandCrosses` sends joint 1 from 0 to 10 rad at once. Sessions that
  start with a move the limiter would have allowed, for one with the robot's own position, stay
  between the stops. The first pose is sent as it is (`PoseSessions.FirstPoseSent`), for one a metre
  away (`PoseSessions.FirstPoseJumps`); the moves of all poses of a session are bounded, whatever
  follows, if and only if the first output lies within one bounded move of the robot
  (`PoseSessions.SessionBoundedExactly`). The elbow keeps its limits if and only if the first output
  is within about 5 microradians of the robot's elbow (`JointSessions.ElbowIsLimitedExactly`).
* **Joints 5 and 7 can cross their stops.** The braking curve of these joints decelerates with
  17 rad/s², the limiter allows 9.999 rad/s². `Fr3Joints.FastJointCrosses` gives a ramp after
  which every callback crosses the stop; `Fr3Joints.ExactlyTheSlowJoints` says that of the joints of
  the FR3 exactly those with deceleration limit at most the acceleration limit are safe in every session that starts
  at the robot's position, for the limits of `franka_description` and for the built-in ones.
* **The position-dependent limits break the jerk limit.** `Fr3Joints.JerkLimitIsBroken` gives a ramp
  of joint 1 after which every command changes the acceleration by more than the jerk limit of
  4999.999 rad/s³ allows. It is kept by one command if and only if it is kept by all, namely if
  neither velocity limit has moved out of reach (`JointStops.JerkKeptExactly`); the jerk never exceeds
  J (1 + d/A) (`JointStops.NeverCrossesStops`), a bound that is not claimed to be attained.
* **From message id 2^32 on a reception need not get a state.** `receiveRobotState` compares the 64-bit
  id with a 32-bit copy of the last one, so it does not wait any more. A reception gets a new state
  if and only if the last id fits into 32 bits or a newer state is on the socket already
  (`RobotMessages.NewerExactly`); otherwise it returns the last id with a state that was never set,
  and the mode fields take over whatever that contains (`RobotMessages.QuietSocketYieldsNoState`).
* **A loop that its control callback finishes on the first tick finishes with a motion command of
  zeros.** The motion callback has not been asked then (`MotionLifecycle.Robot.RunCallbacks`); zero is
  out of the range of joints 4 and 6 (`Fr3Joints.ZeroIsOutOfRange`).
* **An invalid pose or elbow sign escapes from `write`** of the hardware interface, which catches
  `std::runtime_error` only (`HardwareInterface.FrankaHardwareInterface.Write`,
  `HardwareInterface.InvalidPoseEscapes`).
* **A joint whose way is exactly the threshold of 1e-6 jumps.** It is neither synchronised nor
  treated as still, so it is sent to its goal at once (`PointToPoint.StartsWithoutJump`).
* **The size check of the non-blocking receive accepts everything**, because it compares with
  the size of a pointer (`Network.NonBlockingCheckAcceptsAll`); a response of 12 bytes, a mere header,
  reaches the handler (`Network.ShortResponseIsHandled`).
* **A start that fails after the Move was sent does not stop the motion** before it releases
  the lock (`MotionLifecycle.Robot.StartControl`, with an input in `MotionLifecycle.FailedStartIsNotStopped`),
  and a failed control loop drops an error of its own cancellation (`MotionLifecycle.CancellationErrorIsDropped`).
* **Requesting the active mode again does nothing**, even after a read failure has ended the
  control of that mode; writes are then skipped with a warning
  (`HardwareInterface.RequestedAgainInVain`).
* **Forward kinematics of the mobile base is a least-squares solution exactly if the wheel
  positions sum to zero** (`SwerveKinematics.LeastSquaresExactlyIfCentered`).
* `franka_robot_state.cpp` lists the root link twice (`LinkTraversal.FrankaRobotState.SetLinksFromUrdf`).

## Model

| member | source | states |
|---|---|---|
| RateLimiter.RunFromRestIsLimited | libfranka/src/rate_limiting.cpp:76-107 | for constant limits, on every run from any admissible velocity at rest, and for whatever is commanded next: velocity within its limits, acceleration at most A and jerk at most J, all at once |
| RateLimiter.OutputIsClosestAdmissible | libfranka/src/rate_limiting.cpp:76-107 | the limited velocity is itself admissible and no admissible velocity is closer to the commanded one |
| RateLimiter.PassesUnchangedExactly | libfranka/src/rate_limiting.cpp:76-107 | a command passes unchanged if and only if it is admissible |
| RateLimiter.RunKeepsInv | libfranka/src/rate_limiting.cpp:76-107 | the strengthened invariant k(L-v) <= a(1-k dt) <= k(U-v) is kept by every run |
| RateLimiter.LimitTorqueRate | libfranka/src/rate_limiting.cpp:59-74 | each limited torque is the one closest to the command whose rate is within its limit |
| JointStops.NeverCrossesStops | libfranka/src/joint_velocity_limits.cpp:115-147 | under conditions on the constants only, no run of the limiter that refers to the echoing robot, from rest, leaves the range between the stops; velocity and acceleration are bounded, the moving limit is exceeded by at most d A/J, jerk by at most the factor 1 + d/A |
| JointStops.JerkKeptExactly | libfranka/src/rate_limiting.cpp:92-106 | on such a run the next command keeps the jerk limit if and only if neither moving velocity limit is out of reach, a guard on the state that no command influences |
| JointStops.StaysClearOfStop | libfranka/src/joint_velocity_limits.cpp:115-130 | one tick keeps enough room before the stop for every acceleration the limiter can apply |
| JointStops.LimitDrop | libfranka/src/joint_velocity_limits.cpp:121-127 | moving at velocity v for one tick lowers the braking curve by at most d dt |
| JointStops.LowerIsMirroredUpper | libfranka/src/joint_velocity_limits.cpp:132-147 | the lower limit is the upper limit of the mirrored joint |
| JointStops.AllowedExactlyIfStoppable | libfranka/src/joint_velocity_limits.cpp:115-130 | a speed is within the upper limit if and only if, with the tolerance, it is within the maximal velocity, and with tolerance and offset could be braked to a stand before the stop |
| Fr3Joints.FastJointCrosses | libfranka/include/franka/rate_limiting.h:145-150 | for joints with deceleration limit 17: after a ramp of 1300 ticks any 520 further commands lead past the stop |
| Fr3Joints.ExactlyTheSlowJoints | franka_description/robots/fr3/joint_limits.yaml:1-72 | of all joints, in both tables and with any filter, exactly those with deceleration limit at most the acceleration limit cannot be driven past a stop by a session that starts at the robot's position |
| Fr3Joints.FirstCommandOnRobot | libfranka/src/control_loop.cpp:195-215 | for every joint of the FR3 the first position sent is between the stops if and only if the first output exceeds none by more than the slack, wherever the robot stands |
| Fr3Joints.FirstCommandCrosses | libfranka/src/control_loop.cpp:197-199 | joint 1 at rest at zero is sent past its stop by the first output 10 |
| Fr3Joints.ZeroIsOutOfRange | franka_description/robots/fr3/joint_limits.yaml:31-62 | zero is outside the range of joints 4 and 6 |
| Fr3Joints.JerkLimitIsBroken | libfranka/src/rate_limiting.cpp:92-106 | after a ramp of joint 1 every next command changes the acceleration by more than 5 rad/s² in a tick |
| ControlLoop.JointLoop.ConvertPositions | libfranka/src/control_loop.cpp:189-215 | the array that is sent: filtered, then limited at the reference position, which is the command itself in the first call only; without the limiter the rest of the way to the output is the way from the reference times one minus the gain |
| ControlLoop.JointLoop.ConvertVelocities | libfranka/src/control_loop.cpp:217-236 | the same for joint velocities |
| ControlLoop.JointLoop.ConvertTorques | libfranka/src/control_loop.cpp:151-173 | the same for torques, with the constant rate limit |
| JointSessions.EchoPositions | libfranka/src/control_loop.cpp:189-215 | the loop object with an echoing robot computes the session of each joint |
| JointSessions.FirstPositionInsideExactly | libfranka/src/control_loop.cpp:197-215 | the first position sent from rest is between the stops if and only if the first output exceeds none by more than what the tolerance pulls back |
| JointSessions.FirstPositionCrosses | libfranka/src/control_loop.cpp:197-199 | so one output beyond that leaves the range however safe the constants are |
| JointSessions.PositionSessionStaysWithinStops | libfranka/src/control_loop.cpp:189-215 | if the move to the first position sent is one the limiter allows at the robot's position, the joint stays between its stops for all further outputs and any filter |
| JointSessions.StartedInPlaceStaysWithinStops | libfranka/src/control_loop.cpp:189-215 | so it does if the first output is the robot's position |
| JointSessions.VelocitySessionStaysWithinStops | libfranka/src/control_loop.cpp:217-236 | a session of velocities stays between the stops without any such condition |
| JointSessions.RunIsSession | libfranka/src/control_loop.cpp:202-215 | every run of the limiter can be commanded through the filter |
| JointSessions.ElbowIsLimitedExactly | libfranka/src/control_loop.cpp:246-282 | the elbow of the pose interface keeps its velocity, acceleration and jerk limits for all further outputs if and only if the first output is within J dt³ of the robot's elbow |
| PoseSessions.PoseLoop.Convert | libfranka/src/control_loop.cpp:238-288 | the pose and the elbow that are sent: filtered, limited at their references and checked, where the first call takes both as their own references |
| PoseSessions.EchoMotions | libfranka/src/control_loop.cpp:238-288 | the loop object with an echoing robot computes the pose session and the elbow session |
| JointSessions.VelocityElbowIsLimited | libfranka/src/control_loop.cpp:310-324 | the elbow of the velocity interface always keeps them |
| FilterSessions.GainIsFraction | libfranka/src/lowpass_filter.cpp:27 | the gain lies strictly between zero and one, the rest 1 - gain is the reciprocal of 1 + 2 pi f dt, and the loop uses gain one exactly from the maximal cutoff frequency on |
| FilterSessions.FilterRunApproaches | libfranka/src/lowpass_filter.cpp:27-28 | on n equal values the filter shrinks the distance by the factor (1 - gain)^n |
| FilterSessions.FilterRunStaysBetween | libfranka/src/lowpass_filter.cpp:27-28 | the filter never leaves the range of its start and its values |
| FilterSessions.UnlimitedPositions | libfranka/src/control_loop.cpp:189-215 | without the limiter a session of positions is its first output followed by the filter, wherever the robot stood |
| FilterSessions.UnlimitedPositionsApproach | libfranka/src/control_loop.cpp:189-215 | so a constant output is approached by the factor 1 - gain in each tick |
| FilterSessions.UnlimitedPositionsStayBetween | libfranka/src/control_loop.cpp:189-215 | every such session stays in the range of its outputs, and with gain one sends the last output itself |
| FilterSessions.UnlimitedVelocities | libfranka/src/control_loop.cpp:217-236 | a session of velocities is the filter from the velocity of the robot on |
| FilterSessions.UnlimitedVelocitiesApproach | libfranka/src/control_loop.cpp:217-236 | so a constant velocity is approached by the factor 1 - gain in each tick |
| FilterSessions.UnlimitedTorques | libfranka/src/control_loop.cpp:151-173 | the same for torques |
| FilterSessions.LimitedTorqueApproaches | libfranka/src/control_loop.cpp:151-173 | with the limiter a torque goes towards the filtered output, not past it, and by no more than the rate limit, which it uses up unless it gets there |
| FilterSessions.UnlimitedElbowApproaches | libfranka/src/control_loop.cpp:246-282 | both elbows approach a constant output by the factor 1 - gain in each tick |
| FilterSessions.UnlimitedPoses | libfranka/src/control_loop.cpp:238-270 | without the limiter the translations of a pose session are the first one followed by the filter, and without a filter every pose is sent as it is |
| FilterSessions.UnlimitedPosesApproach | libfranka/src/lowpass_filter.cpp:46-66 | a session towards one constant pose is never refused, and if the rotations are less than 3 radians apart, the rotation vector left shrinks by the factor 1 - gain in each tick |
| VectorLimiter.RunStaysInBall | libfranka/src/rate_limiting.cpp:13-55 | on every run the velocity stays in the ball of radius Vmax and the applied acceleration has norm at most A |
| VectorLimiter.CommandedAccelerationIsNearest | libfranka/src/rate_limiting.cpp:20-30 | of all accelerations within the jerk limit of the last one, the one formed by the jerk step is nearest to the commanded one |
| VectorLimiter.AppliedIsLargest | libfranka/src/rate_limiting.cpp:32-53 | the guard keeps the direction and applies the largest norm within the acceleration limit whose withdrawal stays inside the ball |
| VectorLimiter.MovesTowardsCommand | libfranka/src/rate_limiting.cpp:13-55 | from zero acceleration the limited velocity lies on the way from the last to the commanded one, beyond the last if that is inside the ball and the norms exceed the threshold of the code |
| VectorLimiter.MoveInsideBall | libfranka/src/rate_limiting.cpp:32-43 | moving along the unit direction by at most the root of the ray-sphere quadratic stays inside the ball |
| VectorLimiter.PassesUnchanged3 | libfranka/src/rate_limiting.cpp:13-55 | a velocity whose jerk is within its limit and whose acceleration is within the safe acceleration at the present distance from the sphere is returned as it is, if neither norm is below the threshold of the code |
| Rotations.RodriguesTurns | libfranka/src/rate_limiting.cpp:244-252 | the matrix built from the skew-symmetric matrix turns every vector about the axis |
| Rotations.TurnKeepsDot | libfranka/src/rate_limiting.cpp:244-252 | turning keeps all inner products |
| Rotations.TurnKeepsCross | libfranka/src/rate_limiting.cpp:244-252 | turning keeps cross products, so right-handed frames stay right-handed |
| Rotations.RotatedFrame | libfranka/src/rate_limiting.cpp:252 | the update maps rotation matrices to rotation matrices |
| PoseLimiter.RodriguesIsRotationByAngle | libfranka/src/rate_limiting.cpp:245-252 | the update keeps the axis and turns what is across it by the angle with the given sine and cosine |
| PoseLimiter.PoseStep | libfranka/src/rate_limiting.cpp:198-258 | from any last pose, one limited pose is rigid, passes the transformation check, has moved by at most Vmax dt and turned by at most 0.99 Wmax dt |
| PoseSessions.AdmissiblePoseIsReached | libfranka/src/rate_limiting.cpp:221-258 | a commanded pose whose twist passes both vector limiters unchanged is reached, in translation and rotation; a rotation whose rate is below the threshold of the code stays |
| PoseSessions.LimitedPoseHasLimitedTwist | libfranka/src/rate_limiting.cpp:242-256 | the twist from the last pose to the limited one is exactly the limited twist |
| PoseLimiter.RunStaysRigid | libfranka/src/rate_limiting.cpp:198-258 | on whole runs of the limiter that refers to the last limited pose, from any pose, every pose sent is rigid and its twist limited; the run ends exactly at the first command that is no transformation |
| PoseLimiter.BuiltInRunStaysRigid | libfranka/include/franka/rate_limiting.h:74-96 | so it is for the built-in Cartesian limits, from rest at any last limited pose |
| PoseSessions.TimesTransposed | libfranka/src/rate_limiting.cpp:229-230 | the transpose of a rotation is its inverse, so equal rotations have no difference |
| PoseSessions.TurnedExactly | libfranka/src/rate_limiting.cpp:229-231 | a rotation is turned by at most an angle if and only if the rotation vector of the difference is no longer |
| PoseSessions.BoundedExactlyIfSlow | libfranka/src/rate_limiting.cpp:225-231 | a move to a rigid pose is bounded if and only if the twist computed from the two poses is within the velocity limits |
| PoseSessions.FirstPoseSent | libfranka/src/control_loop.cpp:252-269 | wherever the robot stands, the first pose sent is the first output itself with the rotation part of its matrix, or the output is refused |
| PoseSessions.FirstMoveBoundedExactly | libfranka/src/control_loop.cpp:252-269 | the move to it is bounded if and only if the first output lies within one bounded move of the robot |
| PoseSessions.FirstPoseJumps | libfranka/src/control_loop.cpp:252-255 | a robot at rest is sent one metre away in one tick |
| PoseSessions.LaterPose | libfranka/src/control_loop.cpp:256-269 | from a slow state every further pose is rigid and its move bounded, whatever is commanded and with any filter |
| PoseSessions.SessionIsRigid | libfranka/src/control_loop.cpp:238-269 | every pose sent in a limited session is rigid |
| PoseSessions.SessionBoundedExactly | libfranka/src/control_loop.cpp:238-269 | the moves of all poses are bounded for every continuation if and only if the first output lies within one bounded move of the robot |
| PoseSessions.StartedInPlaceIsBounded | libfranka/src/control_loop.cpp:238-269 | so they are if the first output is the robot's pose |
| PoseLimiter.RigidIsHomogeneous | libfranka/include/franka/control_tools.h:36-57 | every rigid transform passes the check that commands have to pass |
| Synchronization.SynchronizedSpeedFacts | libfranka/examples/examples_common.cpp:97-104 | for every sufficient common time the discriminant is non-negative, and the chosen root is a positive speed, at most the reachable and the maximal one |
| Synchronization.SynchronizedExactly | libfranka/examples/examples_common.cpp:95-112 | every moving joint ends exactly at the common time, with ordered phases that cover the whole way |
| Synchronization.LongestIsMaximum | libfranka/examples/examples_common.cpp:94 | the common time is the longest of the minimum times and is attained; it is zero if nothing moves |
| Synchronization.MinimumTimeIsLeast | libfranka/examples/examples_common.cpp:72-93 | a joint can finish its way in exactly the times from its minimum time on, with any speed up to the maximum and any accelerations up to the maxima |
| Synchronization.CommonTimeIsLeast | libfranka/examples/examples_common.cpp:72-94 | a time is at least the common time if and only if every joint that moves can finish in it |
| MotionProfile.RampTaylor | libfranka/examples/examples_common.cpp:48-50 | Taylor's formula for the quartic, with the remainder between 0 and 3/4 of the square |
| MotionProfile.DesiredIsSignedWay | libfranka/examples/examples_common.cpp:48-64 | the evaluated expressions are the signed way along the normalised profile |
| MotionProfile.ProfileIsSmooth | libfranka/examples/examples_common.cpp:43-66 | for any two times in any phases: monotone, at most the synchronised speed, speed is the derivative of the way, acceleration at most the larger limit |
| MotionProfile.JointMotionIsLimited | libfranka/examples/examples_common.cpp:36-70 | so is the commanded offset, from zero to delta without overshoot, finished exactly from the end time on |
| PointToPoint.FinishedExactlyTogether | libfranka/examples/examples_common.cpp:68-69 | the generator reports finished exactly from the common end time on |
| PointToPoint.MovingJointIsLimited | libfranka/examples/examples_common.cpp:36-112 | every joint that moves respects its own limits for any two times and ends at its goal |
| PointToPoint.FinishedAtGoal | libfranka/examples/examples_common.cpp:44-67 | when finished, each joint is at its goal, or closer to it than the threshold |
| PointToPoint.StartsWithoutJump | libfranka/examples/examples_common.cpp:82-96 | the motion starts at the start position if and only if the way differs from the threshold |
| PointToPoint.MotionGenerator.constructor | libfranka/examples/examples_common.cpp:22-34 | a fresh generator has no profiles and no way to go |
| PointToPoint.MotionGenerator.FromStart | franka_ros2/franka_example_controllers/src/motion_generator.cpp:25-36 | the second copy is synchronised on construction; the fields of still joints stay uninitialised |
| PointToPoint.MotionGenerator.MinimumTimes | libfranka/examples/examples_common.cpp:81-93 | the first loop computes every joint's minimum time, the least in which the joint can finish (Synchronization.MinimumTimeIsLeast) |
| PointToPoint.MotionGenerator.CalculateSynchronizedValues | libfranka/examples/examples_common.cpp:72-113 | both loops together synchronise exactly the joints that move, the others keep their fields |
| PointToPoint.MotionGenerator.CalculateDesiredValues | libfranka/examples/examples_common.cpp:36-70 | the loop evaluates every joint's profile and its end |
| PointToPoint.MotionGenerator.Call | libfranka/examples/examples_common.cpp:115-133 | the first call with period zero starts the motion, later ones evaluate it at the accumulated time |
| TcpFrames.HeaderRoundTrip | libfranka/common/include/research_interface/robot/service_types.h:39-47 | a header decodes to the command, id and size it was built from |
| TcpFrames.HeaderLayout | libfranka/common/include/research_interface/robot/service_types.h:39-47 | command, id and size in this order, each with its lowest byte first |
| TcpFrames.ParseConserves | libfranka/src/network.h:164-202 | the frames of a stream and its rest are the stream |
| TcpFrames.ParseRecovers | libfranka/src/network.h:164-202 | frames written one after another are recovered exactly |
| TcpFrames.ParseAppend | libfranka/src/network.h:164-202 | parsing can be resumed at any byte |
| TcpFrames.StoredUnderOwnId | libfranka/src/network.h:193 | a stored response lies under its own command id |
| TcpFrames.MailboxConserves | libfranka/src/network.h:192-197 | every frame that arrived was handed out once, dropped as a duplicate, or is waiting |
| TcpFrames.NothingDroppedWithDistinctIds | libfranka/src/network.h:193 | without repeated ids nothing is dropped |
| Network.Network.TcpReadFromBuffer | libfranka/src/network.h:164-202 | one read keeps the invariant that consumed bytes are the completed frames and the filled part of the pending one; it makes progress if it can, and throws if and only if the connection is broken or the next header announces less than its own size |
| Network.Network.TcpSendRequest | libfranka/src/network.h:204-225 | one well-formed frame with the next command id is sent |
| Network.Network.TcpReceiveResponse | libfranka/src/network.h:227-249 | a response is handed to the handler only under its own id, and removed unless the handler throws |
| Network.Network.TcpBlockingReceiveResponse | libfranka/src/network.h:251-280 | returns the response and its variable part, removed from the mailbox; one that is too short is refused and stays |
| Network.ReceivedFramesAreParsed | libfranka/src/network.h:164-202 | at every moment the received frames are those of the whole-stream parser |
| Network.FragmentationDoesNotMatter | libfranka/src/network.h:174-191 | the same bytes in any chunks with any short reads yield the same frames |
| Network.SentIsReceived | libfranka/src/network.h:164-202 | what the robot sends is received, and with distinct ids each response is either waiting or handed out exactly once |
| Network.FramesAreNeverMalformed | libfranka/src/network.h:179-181 | a stream of frames never triggers the size exception |
| Network.NonBlockingCheckAcceptsAll | libfranka/src/network.h:239-243 | the check against the size of a pointer accepts every stored response |
| Network.ShortResponseIsHandled | libfranka/src/network.h:236-244 | on a fresh connection a response that is a mere header of 12 bytes reaches the handler |
| Network.RequestIdsAreDistinct | libfranka/src/network.h:208-211 | requests fewer than 2^32 apart have different ids, in spite of the wrap-around |
| Network.IdsFollowEachOther | libfranka/src/network.h:208-211 | the k-th id is the first one advanced k times, wrapping at 2^32 |
| RobotMessages.DrainIsMaximum | libfranka/src/robot_impl.cpp:195-201 | draining the socket yields the newest state on it, if it is newer than the last |
| RobotMessages.AwaitIsFirstNewer | libfranka/src/robot_impl.cpp:203-209 | waiting returns the first newer state |
| RobotMessages.NewerExactly | libfranka/src/robot_impl.cpp:186-213 | a reception that returns got a newer state if and only if the last id fits into 32 bits or a newer state was on the socket |
| RobotMessages.QuietSocketYieldsNoState | libfranka/src/robot_impl.cpp:188-204 | on a quiet socket a reception returns a state that was never set exactly from id 2^32 on |
| RobotMessages.IdIsRepeated | libfranka/src/robot_impl.cpp:188-204 | with last id 2^32 and a quiet socket a run returns the same id once more |
| RobotMessages.ReceivedIdsIncrease | libfranka/src/robot_impl.cpp:186-224 | over any run with reordered, duplicated or stale datagrams no id is older than one before, nor equal to one that fits into 32 bits |
| RobotMessages.IncreaseExactly | libfranka/src/robot_impl.cpp:186-224 | the ids of a run strictly increase if and only if before every reception the last id fits into 32 bits or a newer state is on the socket |
| RobotMessages.TimeStepsForward | libfranka/src/active_control.cpp:29-41 | no time step underflows, the first is zero, and a later one is zero only if the id before it does not fit into 32 bits |
| RobotMessages.TimeStepsTelescope | libfranka/src/active_control.cpp:29-41 | together the time steps are the time that passed |
| RobotMessages.ReadTimesAddUp | libfranka/src/active_control.cpp:29-41 | so it is on every run of receptions |
| RobotImplementation.AcceptedExactlyIfMatching | libfranka/src/robot_impl.cpp:151-179 | a non-empty command is accepted if and only if its parts are exactly those of the current modes |
| RobotImplementation.RefusedExactlyFor | libfranka/src/robot_impl.cpp:151-179 | each of the three reasons for a refusal, if and only if it is the first that applies |
| RobotImplementation.RobotImpl.ReceiveRobotState | libfranka/src/robot_impl.cpp:186-224 | both loops, with the 32-bit copy of the last id, compute the specified reception and update the modes, to arbitrary ones if no state was received |
| RobotImplementation.RobotImpl.SendRobotCommand | libfranka/src/robot_impl.cpp:138-184 | sends the command or refuses it for exactly the specified reason |
| RobotImplementation.RobotImpl.ThrowOnMotionError | libfranka/src/robot_impl.cpp:91-107 | returns if and only if the robot moves in the modes of the current move; otherwise a response that reports a failure is a control error, and any other a protocol error |
| RobotImplementation.RobotImpl.StartMotion | libfranka/src/robot_impl.cpp:253-327 | refuses while something runs; otherwise sets the current modes and sends one Move; of the first response exactly the ten failures become command errors, an unknown status a protocol error, and after Success or MotionStarted the wait decides |
| RobotImplementation.RobotImpl.AwaitStart | libfranka/src/robot_impl.cpp:307-322 | the wait ends well with a state in the requested modes or a response Success, or MotionStarted while no generator runs; failures are control errors, MotionStarted with a running generator and unknown statuses protocol errors |
| RobotImplementation.RobotImpl.FinishMotion | libfranka/src/robot_impl.cpp:329-371 | a normal return leaves nothing running and no current move; only finishing commands were sent, at least one if something ran; once the robot is at rest and responds, it returns if and only if the status is Success or MotionStarted, the ten failures are control errors, an unknown status is a protocol error |
| RobotImplementation.RobotImpl.CancelMotion | libfranka/src/robot_impl.cpp:456-478 | a normal return with a live connection leaves nothing running, after a StopMove, with a dead one nothing happens; of the responses exactly the five failures are control errors, after Success it returns once the robot is at rest, every other status is a protocol error |
| MotionLifecycle.ActiveControl.WriteMotion | libfranka/src/active_motion_generator.cpp:22-62 | the guards make refusal by sendRobotCommand impossible; a command is sent whenever the connection is open; a finishing one ends as the robot's response says and releases the lock with the robot at rest |
| MotionLifecycle.ActiveControl.WriteTorques | libfranka/src/active_torque_control.cpp:12-25 | the same for torque control |
| MotionLifecycle.ActiveControl.ReadOnce | libfranka/src/active_control.cpp:29-41 | time steps are non-negative, zero only first or after an id of 2^32 or more, and sum to the time since the first read; a received state is returned if and only if it is one of the motion |
| MotionLifecycle.ActiveControl.Destroy | libfranka/src/active_control.cpp:23-27 | an unfinished control is cancelled before its lock is released, and ends as the robot's responses say; a finished one does nothing |
| MotionLifecycle.Robot.StartControl | libfranka/src/robot.cpp:262-309 | needs the lock; on success the new control holds it, on failure nobody does; a Move is sent if and only if the lock was free and the robot idle, also by a start that then fails; it ends as the robot's responses say |
| MotionLifecycle.Robot.Control | libfranka/src/robot.cpp:52-169 | the lock is released in any case; a normal return leaves the robot at rest, after the Move, one command for each tick with the state it saw, and the end; a motion that starts and finishes ends as its last response says; an error of the cancellation is dropped and leaves the current move |
| MotionLifecycle.Robot.RunCallbacks | libfranka/src/control_loop.cpp:100-142 | no command of the loop is ever refused; the steps given to the callbacks never underflow and add up, in spite of repeated ids; the finishing command holds the motion output of the last tick, or of the one before if the control callback finishes, and is the initial one exactly if that was the first tick |
| MotionLifecycle.TimedAppend | libfranka/src/control_loop.cpp:117-138 | one more state keeps the time steps sound |
| MotionLifecycle.FailedStartIsNotStopped | libfranka/src/robot_impl.cpp:253-327 | a fresh robot that answers the Move and then loses the connection: the start fails, the lock is free, and only the Move was sent |
| MotionLifecycle.CancellationErrorIsDropped | libfranka/src/control_loop.cpp:143-149 | a fresh robot whose connection breaks in the loop and in the cancellation: the loop reports the first error only, and the current move remains |
| ControlSessions.Program.LockedExactlyWhileUnfinished | libfranka/src/active_control.cpp:16-27 | the mutex is held if and only if one of the program's controls is unfinished, there is at most one, and the current move is its own |
| ControlSessions.Program.Perform | libfranka/src/robot.cpp:262-309 | whatever the program does next and whatever the robot does, the invariant is kept and no command is refused; a start succeeds exactly with one more control, and is refused while the lock is held or the robot moves; what returns normally has finished or destroyed its control |
| ControlSessions.Program.PerformAll | libfranka/src/robot.cpp:262-309 | so it is for every sequence of calls: no outcome is a refusal, and the mutex is held if and only if a control is unfinished |
| HardwareRobot.Robot.WriteOnce | franka_ros2/franka_hardware/src/robot.cpp:77-119 | with coherent flags the command goes to the active control, which refuses invalid values; the branch that should not be reached is taken if and only if the command does not fit |
| HardwareRobot.Robot.WriteOnceWithElbow | franka_ros2/franka_hardware/src/robot.cpp:121-157 | the same with an elbow command |
| HardwareRobot.Robot.StopRobot | franka_ros2/franka_hardware/src/robot.cpp:66-75 | no control and no flag is left |
| HardwareRobot.Robot.InitializeTorqueInterface | franka_ros2/franka_hardware/src/robot.cpp:298-306 | it succeeds if and only if the first attempt starts, or fails with a control error, is recovered from and the second starts; from a stopped robot the flag is then set |
| HardwareInterface.FrankaHardwareInterface.Write | franka_ros2/franka_hardware/src/franka_hardware_interface.cpp:267-314 | an exception escapes if and only if the write reaches a control that refuses the pose or the elbow sign, never for an unknown size; which command vector goes to which control, with or without the elbow, for each of the seven modes, and only once it is seeded |
| HardwareInterface.FrankaHardwareInterface.Read | franka_ros2/franka_hardware/src/franka_hardware_interface.cpp:231-259 | the first read after a switch seeds the command from the measured state; a control error stops the robot |
| HardwareInterface.FrankaHardwareInterface.PerformCommandModeSwitch | franka_ros2/franka_hardware/src/franka_hardware_interface.cpp:408-486 | which mode, control and flag serve which claims, with and without the elbow, after a successful switch; commands start fresh; if and only if neither attempt starts the control, nothing is active; the active mode is left alone |
| HardwareInterface.FrankaHardwareInterface.PrepareCommandModeSwitch | franka_ros2/franka_hardware/src/franka_hardware_interface.cpp:488-551 | succeeds if and only if every kind of interface is requested as a whole or not at all, and then the claims are as requested; otherwise exactly the kinds before the refused one are updated, and a complete stop of that one |
| HardwareInterface.GrantedExactlyIfWhole | franka_ros2/franka_hardware/src/franka_hardware_interface.cpp:525-547 | a kind of interface is granted if and only if all of its interfaces are requested or none: seven, two, six or sixteen |
| HardwareInterface.CountIsNumberOfPlaces | franka_ros2/franka_hardware/src/franka_hardware_interface.cpp:526-535 | the count is the number of places that name an exported interface of the kind |
| HardwareInterface.NameAfterSlash | franka_ros2/franka_hardware/src/franka_hardware_interface.cpp:491-503 | the type is what follows the first slash of the name |
| HardwareInterface.NameTellsKind | franka_ros2/franka_hardware/src/franka_hardware_interface.cpp:69-80 | each of the six names belongs to exactly one kind |
| HardwareInterface.FrankaHardwareInterface.Perform | franka_ros2/franka_hardware/src/franka_hardware_interface.cpp:166-551 | the effect of each callback: only a write sends, only a request changes claims, a switch starts what serves the claims |
| HardwareInterface.FrankaHardwareInterface.PerformAll | franka_ros2/franka_hardware/src/franka_hardware_interface.cpp:166-551 | for every sequence of callbacks the flags name the active control, it is that of the active mode, and every positional command follows a read after the last switch |
| HardwareInterface.InvalidPoseEscapes | franka_ros2/franka_hardware/src/franka_hardware_interface.cpp:277-311 | a fresh interface, switched to poses and seeded, lets the exception for sixteen zeros escape |
| HardwareInterface.RequestedAgainInVain | franka_ros2/franka_hardware/src/franka_hardware_interface.cpp:436-438 | after a read failure, requesting the active mode again succeeds without a control, and a write reports success without sending |
| HardwareRobot.InvalidPoseAndElbow | libfranka/include/franka/control_tools.h:99-119 | zeros are no pose, and an elbow needs a sign |
| HardwareRobot.PoseIsColumnMajor | libfranka/include/franka/control_tools.h:36-57 | which entries of the sixteen are the matrix, the translation and the last row: those of a column-major matrix |
| HardwareInterface.FrankaHardwareInterface.OnActivate | franka_ros2/franka_hardware/src/franka_hardware_interface.cpp:166-174 | no mode is active, nothing was sent, and of the first read only an exception matters |
| HardwareInterface.FrankaHardwareInterface.OnDeactivate | franka_ros2/franka_hardware/src/franka_hardware_interface.cpp:193-201 | no mode and no control is active |
| HardwareInterface.SeededMeansRead | franka_ros2/franka_hardware/src/franka_hardware_interface.cpp:203-229 | before every position, pose or elbow command some state was read after the last mode switch |
| HardwareInterface.DesiredModeServesClaims | franka_ros2/franka_hardware/src/franka_hardware_interface.cpp:418-434 | the desired mode is commanded through a claimed interface, with the elbow exactly if it is claimed beside a Cartesian one; a single claimed kind determines the mode, and there is none only if at most the elbow is claimed |
| HardwareInterface.OneKindPerName | franka_ros2/franka_hardware/src/franka_hardware_interface.cpp:491-503 | no interface counts for two kinds |
| LoadCombination.CombineAddsMoments | libfranka/src/load_calculations.cpp:7-78 | combining two bodies is adding their moments |
| LoadCombination.CombineCommutes | libfranka/src/load_calculations.cpp:7-78 | the order of end effector and load does not matter |
| LoadCombination.CombineAssociates | libfranka/src/load_calculations.cpp:7-78 | three bodies can be combined in either grouping, also massless ones |
| LoadCombination.MasslessIsNeutral | libfranka/src/load_calculations.cpp:52-58 | a body without mass changes nothing, whatever its centre and inertia |
| LoadCombination.OrderDoesNotMatter | libfranka/src/load_calculations.cpp:7-78 | any list of bodies combines to the same mass, centre and inertia in every order |
| LoadCombination.ParallelAxes | libfranka/src/load_calculations.cpp:60-75 | the combined inertia is the sum plus that of the reduced mass at the distance of the centres |
| LoadCombination.CombinedInertiaIsProper | libfranka/src/load_calculations.cpp:60-75 | symmetry and positive semidefiniteness are preserved |
| LoadCombination.FillCenterOfMass | libfranka/src/load_calculations.cpp:12-19 | the loop fills the specified centre |
| InertiaCache.RobotModel.UpdateInertiaIfNeeded | libfranka/src/robot_model.cpp:78-101 | whether cached or not, the model has the inertia of the given load |
| InertiaCache.RobotModel.RestoreOriginalInertia | libfranka/src/robot_model.cpp:103-108 | the cache is invalid afterwards, and a link that was loaded has its initial inertia again |
| InertiaCache.RobotModel.Mass | libfranka/src/robot_model.cpp:110-125 | after any history the result depends on the arguments only |
| InertiaCache.RobotModel.Coriolis | libfranka/src/robot_model.cpp:127-147 | the same |
| InertiaCache.RobotModel.CoriolisWithGravity | libfranka/src/robot_model.cpp:149-175 | the same, with one gravity vector for both parts of the difference: with gravity added the result is the torque of the inverse dynamics |
| InertiaCache.RobotModel.Gravity | libfranka/src/robot_model.cpp:177-200 | the same with mass; without mass the inertia of the last call decides |
| InertiaCache.MassIsHistoryFree | libfranka/src/robot_model.cpp:110-125 | two models with different histories agree |
| SwerveKinematics.Kinematics.InverseKinematics | franka_ros2/franka_mobile/src/swerve_kinematics.cpp:104-140 | the loop gives each wheel its command, from its own previous angle |
| SwerveKinematics.WheelFollowsPoint | franka_ros2/franka_mobile/src/swerve_kinematics.cpp:119-130 | a wheel faster than eps gets exactly the velocity of its point of the base, also when it is flipped |
| SwerveKinematics.ReversesExactly | franka_ros2/franka_mobile/src/swerve_kinematics.cpp:123-130 | a wheel runs backwards if and only if it is fast and the direct angle is more than a quarter turn from the previous one |
| SwerveKinematics.SlowWheelIsClose | franka_ros2/franka_mobile/src/swerve_kinematics.cpp:123-130 | a slower wheel keeps its angle and is off by at most 2 eps radius |
| SwerveKinematics.ForwardAfterInverse | franka_ros2/franka_mobile/src/swerve_kinematics.cpp:34-58 | forward after inverse returns the commanded twist for any steering history, if both wheels are faster than eps |
| SwerveKinematics.LinearErrorIsSmall | franka_ros2/franka_mobile/src/swerve_kinematics.cpp:104-140 | otherwise the linear error is at most 2 eps radius |
| SwerveKinematics.RotationErrorIsSmall | franka_ros2/franka_mobile/src/swerve_kinematics.cpp:104-140 | and the error of the rotation, at the distance of the wheels, too |
| SwerveKinematics.ForwardIsLeastSquares | franka_ros2/franka_mobile/src/swerve_kinematics.cpp:60-102 | with opposite wheels forward kinematics is the unique minimiser of the sum that the QR variant sets up |
| SwerveKinematics.LeastSquaresExactlyIfCentered | franka_ros2/franka_mobile/src/swerve_kinematics.cpp:34-58 | it is a minimiser for all wheel velocities if and only if the wheel positions sum to zero |
| VelocityFilter.Controller.UpdateDQFilter | libfranka/examples/motion_with_control.cpp:50-55 | the ring buffer holds the last samples, rotated by the position |
| VelocityFilter.Controller.GetDQFiltered | libfranka/examples/motion_with_control.cpp:57-63 | the strided sum is the mean of the joint's last samples, for every filter size |
| VelocityFilter.OverwriteRotates | libfranka/examples/motion_with_control.cpp:52-54 | overwriting the oldest entry rotates the new window |
| VelocityFilter.MeanMoves | libfranka/examples/motion_with_control.cpp:50-63 | a new sample moves the mean by its share of the difference to the sample that leaves the window |
| LinkTraversal.FrankaRobotState.SetChildLinks | franka_ros2/franka_semantic_components/src/franka_robot_state.cpp:106-123 | the explicit stack terminates and appends the preorder with children last to first |
| LinkTraversal.FrankaRobotState.SetLinksFromUrdf | franka_ros2/franka_semantic_components/src/franka_robot_state.cpp:125-129 | every link is listed as often as it occurs, and the root once more |
| LinkTraversal.FrankaRobotState.GetLinkIndex | franka_ros2/franka_semantic_components/src/franka_robot_state.cpp:86-93 | the first position of the name, or an exception exactly if it is missing |
| LinkTraversal.PreorderListsAll | franka_ros2/franka_semantic_components/src/franka_robot_state.cpp:106-123 | the traversal lists exactly the links of the description |
| LinkTraversal.LaterSiblingFirst | franka_ros2/franka_semantic_components/src/franka_robot_state.cpp:106-123 | of two siblings the later one is listed first, with all that is below it |
| LinkTraversal.PreorderOfChain | franka_ros2/franka_semantic_components/src/franka_robot_state.cpp:106-123 | a serial chain is listed from root to tip |

## Left out

- Floating-point rounding, NaN and infinity, and the `isfinite` checks: the theorems are about exact arithmetic.
- Sockets, timeouts and threads: the network is a byte stream and a queue of datagrams with arbitrary chunks and failures; operations of one object do not interleave.
- The interpolation of rotations in the pose filter: an arbitrary function that leaves equal rotations as they are; for sessions without the limiter also one that yields rotations and goes its part of the way on the shortest path.
- The conversion of Cartesian velocities in the control loop: each half of the twist is filtered and limited by itself, like the vectors of `VectorLimiter`.
- Eigen's angle-axis extraction and the rotation part of a matrix: arbitrary functions, except that the rotation part is always a rotation, and of a rotation it is itself; for sessions also that the rotation vector of a difference turns one rotation into the other, and is axis times angle for turns of at most one radian.
- Parsing of URDF, and the dynamics library behind the robot model: arbitrary functions.
- `startAsyncControl`, `Robot::read` and the setters: easy members of the lifecycle.
- The jerk of the 3-vector limiter: its scaling by the distance to the sphere does not bound it.
- Steering-angle changes of the mobile base: angle differences are not wrapped, so no bound holds.
- Interleaving of the real-time thread with a mode switch: every callback of the hardware interface is one step.
- Limiters and filters applied by `franka_hardware` between the hardware interface and the active control; those for poses are off by default.
- PointToPoint.MotionGenerator.constructor: excludes the speed factor zero, for which the code divides by zero.
- MotionLifecycle.Robot.Loop: after a failed loop the robot is at rest only if the cancellation succeeded, since its exception is dropped.
- MotionLifecycle.ActiveControl.Destroy: an exception of the cancellation ends the program; the model then promises nothing more.
- HardwareRobot.Robot.InitializeTorqueInterface: like the other four it keeps the flags coherent only from a stopped robot, as its caller guarantees.
- JointSessions.PositionSessionStaysWithinStops: its start condition is sufficient for all continuations; larger first moves can be safe as well, and no closed condition for them is given.
- JointSessions.ElbowIsLimitedExactly: for sessions whose poses all have an elbow.
- Network.Network.TcpReadFromBuffer: promises nothing about the connection after a malformed header, and leaves out the cast of the remaining size to a 32-bit integer, which matters for frames of 2^31 bytes and more.
