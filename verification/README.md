# Verified model of the Hummingbird offboard stack

A Dafny model of the parts of the repository in which something can go wrong over time or over
unbounded inputs, with proofs about every input, every run and every reachable state:

- **Offboard command node** (`px4_position_cmd.cpp`): four control modes, freshness timeouts, rate-limited
  requests, a low-pass handoff before the path. `PositionCommand` is the node as a value with one step per
  message or tick, `CommandHistory` says from the events alone what the last messages were, how old they are and which
  mode they lead to, `PositionCommandRuns` is what holds of all runs in those terms, `PositionCommandNode` the node as
  the object with the callbacks, each shown to take the specified step.
- **Servo bridges** (`px4_servo_to_dynamixel.cpp`, `px4_servo_to_gz.cpp`): `Servos`, `Dynamixel`, `Gazebo` and
  the proof that both keep the same angles (`BridgeEquivalence`); `ServoNodes` holds the objects with their arrays.
- **Trajectories and rotations** (`utils.hpp`, the viewer, the motion-capture node): `Angles`, `LowPass`,
  `Paths`, `StepPath`, `TrigPaths` with `Trigonometry`, `Rotation`, `RollPitchYaw`.
- **XRCE agent core** (`Root.cpp`, `Processor.cpp`, `ProxyClient.cpp`): the client table with its sweep cursor and
  the liveliness checks (`XrceRoot`, `XrceSweep`, `XrceAgent`), when a client is dead or there at all, from the events
  (`XrceLiveliness`), the object table with the creation modes of
  Table 7 of OMG DDS-XRCE (`XrceObjects`).
- **Wire formats** (`XRCETypes.cpp`, `MessageHeader.cpp`, `optitrack.cpp`): plain CDR (XCDR version 1, clause 7.4
  of OMG DDS-XTypes 1.3) in `Cdr`, the XRCE payloads in `XrceTypes`, `XrcePayloads` and `XrceSubmessages`, their bytes on
  the wire in `XrceLayout`, the same serialisers on a mutable stream in `XrceStream` with `XrceRoundTrip`; NatNet frames
  in `NatNetFormat` and `NatNetDecoder`, NatNet data descriptions in `NatNetModel`, the bytes of both in `NatNetLayout`,
  the report of the bodies in `NatNetReport`.
- **Viewer buffers** (`px4_multirotor_viewer.py`): `RingBuffer`, the health and delay windows over a log of events in
  `OptiHealth`, the object that maintains them in `OptiMonitor`.

Where the source changes state in place, the model has a class with the same fields, and each method is proved
against a function of the old state; the theorems over runs are about that function, and they are stated over the
events of the run and in numbers, not in the terms that the function itself uses. Doubles are reals, pi is
`M_PI` to double precision, `pow(0.01, 1/n)` is any ratio whose n-th power is 0.01, and sine, cosine, square root and
the inverse functions are any functions with their laws. Callbacks and timers are atomic steps on a clock, as each node
spins in one thread.

`dafny verify dfyconfig.toml` checks everything.

## Where the code does not do what it seems to promise

The model follows the code. These are theorems, each with the condition under which the promise does hold:

- The CLIENT size counts the MTU without aligning it and does not count the number of properties: it is exact if and
  only if there are no properties and the representation starts at an even position (`ClientSize`). A CREATE of a
  CLIENT at an even position is therefore measured one byte short (`CreateSize`). In INFO the padding of an
  activity can take the missing bytes up; exactly when is `InfoSize`.
- An INFO whose configuration is an AGENT with properties is read back without them, because the configuration is copied
  and the copy assignment of AGENT_Representation leaves them out. Every other INFO comes back as it was written
  (`InfoLaw`, `InfoDropsAgentProperties`).
- `create_object` answers STATUS_OK without making anything for object kinds outside the eight supported ones, and an
  object that sat at the key is gone (`OkMeansMade`, `UnsupportedKindErases`).
- The try counter of a proxy client is not initialised. A removal comes after three unanswered requests or more if and
  only if the counter of that client did not start at 1 or 2 (`ThreeStrikesIff`); from 2 one request is enough
  (`OneStrikeIsEnough`).
- A client has hard liveliness if and only if the creation that built it found no client under its key and asked for
  it (`HardIff`). One that comes back under a new session loses it (`HardClientRebuilt`) and is not asked or removed
  by the sweep until it is built again (`RebuiltClientEscapesSweep`).
- On a non-finite servo value the Gazebo bridge commands zero and counts the message as alive, the Dynamixel
  bridge ignores it. A message keeps the bridges in agreement after every run of finite messages if and only if
  it is finite itself (`AgreementKeptIff`).
- The client reports only rigid bodies whose tracked bit is set, and in NatNet 1 and 2.0 to 2.5 there is no such bit:
  a version reports bodies at all if and only if it sends the parameters field (`ReportsIff`, `NothingTracked`).
  Before version 2 a definition takes its name from an uninitialised buffer (`ReadBodyDef`).
- The viewer's windows equal the filter of the history for every clock that never runs back (`ArrivalsAreWindow`,
  `DelaysAreWindow`). With any clock they do so if and only if the deque that the last event found has no old entry
  behind one that is not, and every entry popped before is old (`ArrivalsAreWindowIff`, `DelaysAreWindowIff`). A step
  back breaks the one (`ClockStepBackBreaksTheWindow`), a jump ahead and back the other (`ClockJumpBreaksTheWindow`).

## Model

| member | source | states |
|---|---|---|
| `PositionCommandRuns.PathSetpointsAreSafe` | src/px4_hummingbird_cmd/src/px4_position_cmd.cpp:353-505 | In every run, a tick that publishes a path setpoint has an earlier handoff tick that found the vehicle at the initial pose; at every tick since then, this one included, the last source message was DDS and the last status message said OFFBOARD (and armed, with `auto_arm`), both at most 1.0 s old; the target is the path at the time since that handoff tick, shifted to (0, -1, -1). |
| `PositionCommandRuns.PathOrigin` | src/px4_hummingbird_cmd/src/px4_position_cmd.cpp:353-384 | Whenever the messages put the node on the path, there is one arrival since which every tick was safe; the trajectory clock is the time of that arrival and the offset (0, -1, -1). |
| `PositionCommandRuns.PathSetpointStep` | src/px4_hummingbird_cmd/src/px4_position_cmd.cpp:275-313 | One event publishes a path setpoint, the path on the trajectory clock shifted by the offset, exactly if it is a tick in path mode with fresh DDS, fresh status and a ready vehicle. |
| `PositionCommandRuns.PathSetpointIff` | src/px4_hummingbird_cmd/src/px4_position_cmd.cpp:275-313 | A path setpoint is published at exactly the safe ticks on the path: both directions, over the events. |
| `PositionCommandRuns.InputsAreLastMessages` | src/px4_hummingbird_cmd/src/px4_position_cmd.cpp:106-170 | In every run each input of the node holds value and time of the last message of its kind, or what it started with. |
| `PositionCommandRuns.TickSees` | src/px4_hummingbird_cmd/src/px4_position_cmd.cpp:406-428 | What a tick tests is what the last messages said and whether they are at most 1.0 s old; the pose a handoff would start from is that of the last position message if it is valid and at most 1.0 s old, else (0, -1, -1) with zero yaw. |
| `PositionCommandRuns.ReachedIff` | src/px4_hummingbird_cmd/src/px4_position_cmd.cpp:315-351 | The arrival test, whatever turn the yaw goal was unwrapped to, asks for fresh valid inputs, a distance of at most 0.15 m from (0, -1, -1), and heading, roll and pitch within five degrees of level, whole turns aside. |
| `CommandHistory.LastBeforeIff` | src/px4_hummingbird_cmd/src/px4_position_cmd.cpp:106-170 | The last message of a kind is one with none of the kind behind it, and there is none exactly if none came. |
| `CommandHistory.OnPathIff` | src/px4_hummingbird_cmd/src/px4_position_cmd.cpp:353-505 | The messages put the node on the path exactly if some handoff tick found the vehicle at the initial pose and every tick since was safe. |
| `CommandHistory.InHandoffIff` | src/px4_hummingbird_cmd/src/px4_position_cmd.cpp:353-505 | A handoff is under way exactly if one began and every tick since found DDS selected and did not arrive. |
| `CommandHistory.EntersIff` | src/px4_hummingbird_cmd/src/px4_position_cmd.cpp:172-273 | A handoff begins at exactly the ticks that, with DDS selected and fresh status, hear of an armed vehicle or need not ask, in the wait for arming, or in the wait for offboard with OFFBOARD reported and 0.5 s passed. |
| `PositionCommandRuns.HandoffOrigin` | src/px4_hummingbird_cmd/src/px4_position_cmd.cpp:211-234 | Whenever a handoff is under way, its filters are those of the entry pose (the last known vehicle pose, else the initial pose) after as many updates as setpoints were published since, towards one goal fixed at entry. |
| `PositionCommandRuns.HandoffSetpointLaw` | src/px4_hummingbird_cmd/src/px4_position_cmd.cpp:353-374 | The n-th handoff setpoint is, on every axis, goal + r^n (start - goal), between start and goal, where start is read off the last position message before the entry; after 3200 setpoints one percent of the error is left on all six axes; the goal is (0, -1, -1), level, with a yaw of whole turns within half a turn of the starting yaw, the same for the whole handoff. |
| `PositionCommandRuns.HandoffStartsAtVehicle` | src/px4_hummingbird_cmd/src/px4_position_cmd.cpp:211-234 | Right after the entry the filters and the last target hold x, y, z and heading of the last position message if it is valid and at most 1.0 s old, otherwise (0, -1, -1) and zero yaw, and all six filters are initialised. |
| `PositionCommandRuns.HandoffSetpointIff` | src/px4_hummingbird_cmd/src/px4_position_cmd.cpp:353-374 | A handoff setpoint is published at exactly the handoff ticks with DDS selected and status heard within 1.0 s. |
| `PositionCommandRuns.HandoffSetpointStep` | src/px4_hummingbird_cmd/src/px4_position_cmd.cpp:353-374 | In handoff mode a setpoint is published if and only if the event is a tick with fresh DDS and status; otherwise the filters do not move. |
| `PositionCommandRuns.FiltersAtSetpoint` | src/px4_hummingbird_cmd/src/px4_position_cmd.cpp:353-374 | The published setpoint is the value of filters that took one more step, counted from the entry, towards the goal fixed there. |
| `PositionCommandRuns.SameTurn` | src/px4_hummingbird_cmd/include/utils.hpp:142-155 | Unwrapping the initial yaw against any intermediate handoff yaw, and again against the filter, gives the goal fixed at entry: the turn never changes during a handoff. |
| `PositionCommandRuns.ModeFollowsMessages` | src/px4_hummingbird_cmd/src/px4_position_cmd.cpp:406-505 | At every event of every run the control mode is the one that the messages before it determine, through rules that mention no state of the node; in handoff and path mode the stored DDS flag is set. |
| `PositionCommandRuns.PosctlIff` | src/px4_hummingbird_cmd/src/px4_position_cmd.cpp:386-404 | A POSCTL command is published at exactly the ticks, in handoff or on the path, at which the last source message is not DDS or more than 1.0 s old; the node then waits for offboard again. |
| `PositionCommandRuns.HeartbeatIff` | src/px4_hummingbird_cmd/src/px4_position_cmd.cpp:406-505 | The offboard mode message goes out at exactly the ticks that find DDS selected. |
| `PositionCommandRuns.AtMostOneCommand` | src/px4_hummingbird_cmd/src/px4_position_cmd.cpp:406-505 | A tick publishes at most one command or setpoint beside the offboard mode message; without DDS nothing but a POSCTL; other events publish nothing. |
| `PositionCommandRuns.SetpointAfterPosctl` | src/px4_hummingbird_cmd/src/px4_position_cmd.cpp:386-505 | Between a POSCTL and any later setpoint lies a tick with DDS selected at which the last status message, at most 1.0 s old, said OFFBOARD. |
| `PositionCommandRuns.OffboardConfirmed` | src/px4_hummingbird_cmd/src/px4_position_cmd.cpp:172-209 | The wait for offboard is left only through a tick with DDS selected at which the last status message, at most 1.0 s old, said OFFBOARD. |
| `PositionCommandRuns.OffboardRequestIff` | src/px4_hummingbird_cmd/src/px4_position_cmd.cpp:172-209 | OFFBOARD is requested at exactly the ticks from 0.5 s on, with DDS selected, that hear of a vehicle not in OFFBOARD while waiting for it or on the path, when no request was published in the last 1.0 s. |
| `PositionCommandRuns.ArmRequestIff` | src/px4_hummingbird_cmd/src/px4_position_cmd.cpp:236-273 | Arming is requested at exactly the ticks, with DDS selected, that hear of a disarmed vehicle where the mode asks for an armed one, when no request was published in the last 2.0 s. |
| `PositionCommandRuns.RequestRates` | src/px4_hummingbird_cmd/src/px4_position_cmd.cpp:172-273 | Offboard requests are at least 1 s apart and arm requests at least 2 s apart, in every timed run. |
| `PositionCommandRuns.NoEarlyRequests` | src/px4_hummingbird_cmd/src/px4_position_cmd.cpp:172-209 | No offboard or arm request is published in the first 0.5 s. |
| `PositionCommandRuns.DelayPassed` | src/px4_hummingbird_cmd/src/px4_position_cmd.cpp:172-209 | The wait for offboard is never left in the first 0.5 s. |
| `PositionCommandRuns.PublishedVelocity` | src/px4_hummingbird_cmd/src/px4_position_cmd.cpp:275-313 | A setpoint carries a velocity exactly on the paths "pos" and "demo_straight"; there the position of a later setpoint of the path phase differs from the earlier one plus its velocity times the time between by at most a constant times that time squared, whatever the ticks between. |
| `PositionCommandRuns.PublishedPitch` | src/px4_hummingbird_cmd/src/px4_position_cmd.cpp:275-313 | On the stepped path the published pitch stays within 0 and 60 degrees and moves at most 2.5 degrees per second between any two setpoints of one path phase. |
| `PositionCommandRuns.PublishedSwing` | src/px4_hummingbird_cmd/src/px4_position_cmd.cpp:275-313 | On the path "att" every setpoint holds (0, -1, -1) and pitches by 60 degrees times a sine of forty seconds on the clock of the arrival. |
| `PositionCommandRuns.PublishedCircle` | src/px4_hummingbird_cmd/src/px4_position_cmd.cpp:275-313 | On the path "circle_demo" the setpoints hover at the initial pose for three seconds, then lie half a metre from (-0.5, -1), one metre up and level; the distance of two of them is the chord that the time between them asks for. |
| `PositionCommandRuns.PublishedHold` | src/px4_hummingbird_cmd/src/px4_position_cmd.cpp:275-313 | Under any other name every setpoint of the path phase holds the initial pose and carries no velocity. |
| `PositionCommandRuns.SamePhase` | src/px4_hummingbird_cmd/src/px4_position_cmd.cpp:275-313 | Two setpoints of one path phase are two points of the path on one clock, shifted alike. |
| `PositionCommandNode.Px4PositionCommand.ControllerModeCallback` | src/px4_hummingbird_cmd/src/px4_position_cmd.cpp:106-120 | The object takes the specified step on a source message and publishes nothing. |
| `PositionCommandNode.Px4PositionCommand.LocalPositionCallback` | src/px4_hummingbird_cmd/src/px4_position_cmd.cpp:122-140 | The object takes the specified step on a position message and publishes nothing. |
| `PositionCommandNode.Px4PositionCommand.VehicleAttitudeCallback` | src/px4_hummingbird_cmd/src/px4_position_cmd.cpp:142-149 | The object takes the specified step on an attitude message and publishes nothing. |
| `PositionCommandNode.Px4PositionCommand.VehicleStatusCallback` | src/px4_hummingbird_cmd/src/px4_position_cmd.cpp:151-170 | The object takes the specified step on a status message and publishes nothing. |
| `PositionCommandNode.Px4PositionCommand.WaitForOffboard` | src/px4_hummingbird_cmd/src/px4_position_cmd.cpp:172-209 | New state and published commands are those of the specified offboard wait. |
| `PositionCommandNode.Px4PositionCommand.StartRC2DDSHandoff` | src/px4_hummingbird_cmd/src/px4_position_cmd.cpp:211-234 | New state is the specified handoff start: the last known pose, else the initial pose, with the filters reset to it; which numbers these are is `HandoffStartsAtVehicle`. |
| `PositionCommandNode.Px4PositionCommand.WaitForArm` | src/px4_hummingbird_cmd/src/px4_position_cmd.cpp:236-273 | New state and published commands are those of the specified arm wait. |
| `PositionCommandNode.Px4PositionCommand.FollowPath` | src/px4_hummingbird_cmd/src/px4_position_cmd.cpp:275-313 | New state and published setpoint are those of the specified path tick. |
| `PositionCommandNode.Px4PositionCommand.UpdateFilters` | src/px4_hummingbird_cmd/include/utils.hpp:142-155 | The filters take one update towards the pose with its yaw unwrapped to the filter, and the command is their value. |
| `PositionCommandNode.Px4PositionCommand.RC2DDSHandoff` | src/px4_hummingbird_cmd/src/px4_position_cmd.cpp:353-384 | New state and published setpoint are those of the specified handoff tick. |
| `PositionCommandNode.Px4PositionCommand.SwitchToPositionControl` | src/px4_hummingbird_cmd/src/px4_position_cmd.cpp:386-404 | Publishes one POSCTL command and returns to the offboard wait, changing nothing else. |
| `PositionCommandNode.Px4PositionCommand.OnTick` | src/px4_hummingbird_cmd/src/px4_position_cmd.cpp:406-505 | The tick refines the specified step, state and publications, so all run theorems hold of the object. |
| `Angles.UnwrapNear` | src/px4_hummingbird_cmd/include/utils.hpp:97-102 | The loops terminate for every input and compute the closed form. |
| `Angles.UnwrapWithinHalfTurn` | src/px4_hummingbird_cmd/include/utils.hpp:97-102 | The result is the target plus whole turns, within half a turn of the reference. |
| `Angles.UnwrapIsTheNearShift` | src/px4_hummingbird_cmd/include/utils.hpp:97-102 | Any shift strictly within half a turn of the reference is the result. |
| `Angles.AngleErrorIsMinimum` | src/px4_hummingbird_cmd/include/utils.hpp:104-107 | The angle error is the least distance over all whole-turn shifts, reached by one of them, at most half a turn. |
| `Angles.AngleErrorSymmetric` | src/px4_hummingbird_cmd/include/utils.hpp:104-107 | The angle error does not depend on the order of its arguments. |
| `Angles.AngleErrorTurnInvariant` | src/px4_hummingbird_cmd/include/utils.hpp:104-107 | Whole turns added to either argument change nothing. |
| `Angles.AngleErrorTriangle` | src/px4_hummingbird_cmd/include/utils.hpp:104-107 | The triangle inequality. |
| `LowPass.GeometricLaw` | src/px4_hummingbird_cmd/include/utils.hpp:13-47 | n updates towards one goal leave goal + (1 - alpha)^n (y - goal). |
| `LowPass.Convergence` | src/px4_hummingbird_cmd/include/utils.hpp:13-47 | Updates never overshoot, each moves between the last value and the goal, and after the configured samples one percent of the error is left. |
| `LowPass.UpdateBetween` | src/px4_hummingbird_cmd/include/utils.hpp:13-47 | One update ends between the old value and the goal. |
| `LowPass.FreshFilter` | src/px4_hummingbird_cmd/include/utils.hpp:13-47 | A new filter takes its first value as it is; without a convergence time it follows every value at once, else it keeps the ratio of the error. |
| `Paths.PosPathVelocity` | src/px4_hummingbird_cmd/include/utils.hpp:158-213 | For all t, h >= 0, position at t + h differs from position plus velocity times h by at most 0.75 h^2 on both axes: the velocity is the derivative everywhere, across segments, holds and periods. |
| `Paths.DemoStraightVelocity` | src/px4_hummingbird_cmd/include/utils.hpp:343-381 | The same with the constant 3. |
| `Paths.PosPathHolds` | src/px4_hummingbird_cmd/include/utils.hpp:158-213 | In every ten seconds the path rests at (1, 0) from 2 to 5 s and at the origin from 7 s on, and commands nothing but x. |
| `Paths.DemoStraightHolds` | src/px4_hummingbird_cmd/include/utils.hpp:343-381 | In every twelve seconds the path rests at the origin until 5 s and at (0, 1) from 6 to 11 s, and commands nothing but y. |
| `Paths.RampTaylor` | src/px4_hummingbird_cmd/include/utils.hpp:158-213 | The smoothstep ramp with its holds has its rate as derivative, with remainder at most 3 h^2, also across its foot and top. |
| `StepPath.StepAttRange` | src/px4_hummingbird_cmd/include/utils.hpp:235-307 | The commanded pitch stays within 0 and 60 degrees. |
| `StepPath.StepAttPeriodic` | src/px4_hummingbird_cmd/include/utils.hpp:235-307 | The whole command repeats every cycle. |
| `StepPath.StepAttSlope` | src/px4_hummingbird_cmd/include/utils.hpp:235-307 | Between any two times the pitch changes by at most 2.5 degrees per second, across stages, the turn and the cycle wrap. |
| `StepPath.CyclePitchIsStaircase` | src/px4_hummingbird_cmd/include/utils.hpp:235-307 | Within a cycle the branches of the path are one staircase of eased steps. |
| `StepPath.StepAttHolds` | src/px4_hummingbird_cmd/include/utils.hpp:235-307 | In every cycle of 196 s the pitch is zero for the first and last two seconds and rests at the n-th multiple of five degrees, up to 60 and down again, through the last five of every eight seconds; nothing else is commanded. |
| `TrigPaths.AttPathLaw` | src/px4_hummingbird_cmd/include/utils.hpp:215-233 | Although the time is taken modulo forty seconds, the pitch is one unbroken sine of amplitude 60 degrees; all else is zero. |
| `TrigPaths.CircleLaw` | src/px4_hummingbird_cmd/include/utils.hpp:309-341 | After the hover the path stays half a metre from (-0.5, 0) and level, and the distance of two of its points depends on the time between them alone. |
| `TrigPaths.CircleCourse` | src/px4_hummingbird_cmd/include/utils.hpp:309-341 | It begins where it hovered, is at (-0.5, 0.5) after a quarter of its period, and repeats every thirty seconds. |
| `RollPitchYaw.RpyIsProduct` | src/px4_hummingbird_cmd/include/utils.hpp:80-95 | The quaternion is the product of the turns about z, y and x by the half angles. |
| `RollPitchYaw.RpyIsUnit` | src/px4_hummingbird_cmd/include/utils.hpp:80-95 | It has norm one before it is normalised. |
| `RollPitchYaw.AnglesShow` | src/px4_hummingbird_cmd/include/utils.hpp:109-127 | In the quaternion of three angles the five terms are sine and cosine of roll and yaw times the cosine of the pitch, and the sine of the pitch. |
| `RollPitchYaw.RpyRoundTrip` | src/px4_hummingbird_cmd/include/utils.hpp:80-127 | Angles to quaternion and back gives the pitch always, and all three angles wherever the pitch is not plus or minus 90 degrees. |
| `Servos.ToPprRange` | src/px4_hummingbird_cmd/src/px4_servo_to_dynamixel.cpp:329-335 | Within the angle limit, every goal is within 0..4095 and alpha goals within 2048 +- 341. |
| `Servos.ToPprBetween` | src/px4_hummingbird_cmd/src/px4_servo_to_dynamixel.cpp:329-335 | Zero maps to the neutral goal, and an angle nearer zero to a goal no farther from it on the same side, for both directions of rotation. |
| `Servos.ToPprNearest` | src/px4_hummingbird_cmd/src/px4_servo_to_dynamixel.cpp:329-335 | The goal is the tick nearest to 2048 + direction * angle * 4096 / (2 pi), the upper of two, or the end of 0..4095 that this is past. |
| `Dynamixel.GoalsInRange` | src/px4_hummingbird_cmd/src/px4_servo_to_dynamixel.cpp:375-473 | In every interleaving: filter values within the limit, existing goals equal to the conversion of the filter value and in range, the two return flags never both set. |
| `Dynamixel.InvariantAlways` | src/px4_hummingbird_cmd/src/px4_servo_to_dynamixel.cpp:375-473 | The invariant behind it holds in every reachable state. |
| `Dynamixel.GoalsNeverMoveAway` | src/px4_hummingbird_cmd/src/px4_servo_to_dynamixel.cpp:424-473 | While no finite message arrives, no goal moves away from neutral or changes side, over any stretch of a run. |
| `Dynamixel.ReturnsToNeutral` | src/px4_hummingbird_cmd/src/px4_servo_to_dynamixel.cpp:424-473 | Any tick at least the return time after the first tick past the receive timeout leaves all goals at neutral, until a finite message; non-finite messages neither matter nor delay it. |
| `Dynamixel.AfterTimeout` | src/px4_hummingbird_cmd/src/px4_servo_to_dynamixel.cpp:424-473 | After the timeout tick the bridge is returning since that tick or has completed, until a finite message. |
| `Dynamixel.StaysComplete` | src/px4_hummingbird_cmd/src/px4_servo_to_dynamixel.cpp:424-473 | A completed return changes nothing until a finite message. |
| `Dynamixel.MessageCommands` | src/px4_hummingbird_cmd/src/px4_servo_to_dynamixel.cpp:375-422 | After a finite message every servo is at its control value times its limit (180 degrees for beta, 30 for alpha), the limit or minus it outside -1..1, whatever state the message found. |
| `Dynamixel.GoalsAreNearest` | src/px4_hummingbird_cmd/src/px4_servo_to_dynamixel.cpp:375-473 | In every reachable state with goals, each goal is the tick nearest to the angle of its servo. |
| `Dynamixel.HoldsCommand` | src/px4_hummingbird_cmd/src/px4_servo_to_dynamixel.cpp:424-473 | Until 0.5 s after a finite message the servos stay where it put them. |
| `Dynamixel.ReturnLaw` | src/px4_hummingbird_cmd/src/px4_servo_to_dynamixel.cpp:424-473 | From the timeout on, for five seconds, the angle is the n-th power of the ratio times the angle last asked for after n timers, whatever non-finite messages come. |
| `Dynamixel.IdleBefore` | src/px4_hummingbird_cmd/src/px4_servo_to_dynamixel.cpp:375-473 | Before the first finite message the bridge does nothing. |
| `Gazebo.MessageCommands` | src/px4_hummingbird_cmd/src/px4_servo_to_gz.cpp:107-128 | After every message each joint is at its control value times its limit, clamped, or at zero where the value is not finite. |
| `Gazebo.HoldsCommand` | src/px4_hummingbird_cmd/src/px4_servo_to_gz.cpp:53-80 | Until 0.5 s after a message the joints stay where it put them. |
| `Gazebo.ReturnLaw` | src/px4_hummingbird_cmd/src/px4_servo_to_gz.cpp:53-80 | From the timeout on every timer multiplies the angle by the ratio; from five seconds later on the joint is at zero. |
| `Gazebo.ReturningIff` | src/px4_hummingbird_cmd/src/px4_servo_to_gz.cpp:53-80 | After an event the bridge is returning exactly if the event is a timer at least 0.5 s after the last message. |
| `Gazebo.NeutralBefore` | src/px4_hummingbird_cmd/src/px4_servo_to_gz.cpp:53-80 | Before the first message the joints stay at zero. |
| `BridgeEquivalence.BridgesAgree` | src/px4_hummingbird_cmd/src/px4_servo_to_gz.cpp:53-128 | Driven by the same timed run of finite messages, the Gazebo filter of joint i always equals the Dynamixel filter of its control. |
| `BridgeEquivalence.RelationKept` | src/px4_hummingbird_cmd/src/px4_servo_to_gz.cpp:53-80 | One step of both bridges keeps the relation, although one has a completion flag and the other re-runs the finished return. |
| `BridgeEquivalence.RelatedAlways` | src/px4_hummingbird_cmd/src/px4_servo_to_dynamixel.cpp:375-473 | The relation holds in every reachable pair of states. |
| `BridgeEquivalence.BridgesDisagreeOnNonFinite` | src/px4_hummingbird_cmd/src/px4_servo_to_gz.cpp:107-128 | For every message that is not finite on the controls of the servos there is a run after which it separates the bridges: Gazebo commands zero, Dynamixel ignores it. |
| `BridgeEquivalence.AgreementKeptIff` | src/px4_hummingbird_cmd/src/px4_servo_to_dynamixel.cpp:375-382 | A message keeps the bridges in agreement after every timed run of finite messages if and only if it is itself finite on the controls of the servos. |
| `ServoNodes.Px4ServoToDynamixel.DdsCallback` | src/px4_hummingbird_cmd/src/px4_servo_to_dynamixel.cpp:375-422 | The array loop computes the specified new state, whose angles `MessageCommands` gives; a non-finite message changes nothing; nothing is written. |
| `ServoNodes.Px4ServoToDynamixel.TimeoutCallback` | src/px4_hummingbird_cmd/src/px4_servo_to_dynamixel.cpp:424-473 | The timer computes the specified new state and writes the new goals once messages and goals exist. |
| `ServoNodes.Px4ServoToDynamixel.AdvanceReturn` | src/px4_hummingbird_cmd/src/px4_servo_to_dynamixel.cpp:441-465 | Each filter moves towards zero or is reset to it, and each goal is the conversion of the new value. |
| `ServoNodes.Px4ServoToGz.ActuatorServosCallback` | src/px4_hummingbird_cmd/src/px4_servo_to_gz.cpp:107-128 | The array loop computes the specified new state, whose angles `MessageCommands` gives; nothing is published. |
| `ServoNodes.Px4ServoToGz.TimerCallback` | src/px4_hummingbird_cmd/src/px4_servo_to_gz.cpp:53-80 | The timer computes the specified new state and publishes its angles. |
| `Rotation.RotationRoundTrip` | src/px4_hummingbird_cmd/scripts/px4_multirotor_viewer.py:342-385 | For every quaternion, rotation matrix and back is the normalised quaternion up to sign, with no zero divisor in any of the four branches; normalising changes no unit quaternion. |
| `Rotation.UnitRoundTrip` | src/px4_hummingbird_cmd/scripts/px4_multirotor_viewer.py:351-385 | The same for unit quaternions through the matrix entries. |
| `Rotation.RawRoundTrip` | src/px4_hummingbird_cmd/scripts/px4_multirotor_viewer.py:351-385 | Before the final normalisation the branch already yields the quaternion with the sign of its pivot component. |
| `Rotation.PivotNonZero` | src/px4_hummingbird_cmd/scripts/px4_multirotor_viewer.py:351-385 | The component that the chosen branch divides by is not zero. |
| `Rotation.NormalizeIsUnit` | src/px4_hummingbird_cmd/scripts/px4_multirotor_viewer.py:334-340 | Normalising always gives a unit quaternion. |
| `Rotation.NormalizeKeepsDirection` | src/px4_hummingbird_cmd/scripts/px4_multirotor_viewer.py:334-340 | A quaternion at least 10^-9 long is divided by its length; a shorter one becomes the identity. |
| `Rotation.MatrixRotates` | src/px4_hummingbird_cmd/scripts/px4_multirotor_viewer.py:342-348 | The matrix of a unit quaternion turns every vector as q v q* does. |
| `Rotation.NodeAndViewerAgree` | src/px4_hummingbird_opti/include/utils.hpp:8-29 | The node and the viewer compute the same rotation matrix. |
| `Rotation.AttitudeMap` | src/px4_hummingbird_cmd/scripts/px4_multirotor_viewer.py:410-413 | The attitude map takes (w, x, y, z) to (w, x, -y, -z) up to sign. |
| `Rotation.PositionIsometry` | src/px4_hummingbird_opti/include/utils.hpp:49-59 | The position map keeps all distances and takes the origin to zero. |
| `Rotation.PositionCoordinates` | src/px4_hummingbird_opti/include/utils.hpp:49-59 | The position map gives (dx, -dy, -dz) from the origin. |
| `Rotation.OneFrameChange` | src/px4_hummingbird_opti/include/utils.hpp:49-59 | Positions and attitudes change frame alike: for every matrix, turning a point about the origin and then changing frame is changing frame and then turning by the changed attitude. |
| `Rotation.PoseChangesFrame` | src/px4_hummingbird_cmd/scripts/px4_multirotor_viewer.py:410-413 | The same of the quaternion that is sent, for every quaternion that is reported. |
| `Rotation.ConjugationByDown` | src/px4_hummingbird_cmd/scripts/px4_multirotor_viewer.py:410-413 | Conjugating by R_DOWN flips the signs of exactly the four mixed entries. |
| `XrceSweep.SweepIncreasing` | Micro-XRCE-DDS-Agent/src/cpp/Root.cpp:218-233 | Keys returned between two false returns are strictly increasing, whatever creations, deletions and resets lie between the calls. |
| `XrceSweep.SweepComplete` | Micro-XRCE-DDS-Agent/src/cpp/Root.cpp:218-233 | A client present throughout a sweep is returned exactly once in it. |
| `XrceSweep.SweepEnds` | Micro-XRCE-DDS-Agent/src/cpp/Root.cpp:218-233 | Without creations, the calls before a false return are at most the clients at or after the cursor, and each uses one up. |
| `XrceSweep.CursorAhead` | Micro-XRCE-DDS-Agent/src/cpp/Root.cpp:52-156 | The cursor is past every key already returned in the sweep. |
| `XrceSweep.VisitedOrAhead` | Micro-XRCE-DDS-Agent/src/cpp/Root.cpp:176-204 | A client present so far has been returned or still lies at or after the cursor: deletion at the cursor skips nobody. |
| `XrceRoot.Step` | Micro-XRCE-DDS-Agent/src/cpp/Root.cpp:52-233 | Every operation keeps the cursor at the end or at a live key. |
| `XrceSweep.RemovalNeedsStrikes` | Micro-XRCE-DDS-Agent/src/cpp/processor/Processor.cpp:979-1041 | A sweep removes a client only with hard liveliness and after as many unanswered GET_INFO visits, with no accepted packet or re-creation since the first, as its counter start value asks for. |
| `XrceSweep.RemovedIffStruckOut` | Micro-XRCE-DDS-Agent/src/cpp/processor/Processor.cpp:979-1041 | A visit removes a client if and only if it has hard liveliness and as many strikes since its last renewal as its counter asks for. |
| `XrceSweep.ThreeStrikes` | Micro-XRCE-DDS-Agent/src/cpp/processor/Processor.cpp:979-1041 | With counters starting at zero these are exactly three, the three visits just before the removal. |
| `XrceSweep.ThreeStrikesIff` | Micro-XRCE-DDS-Agent/src/cpp/client/ProxyClient.cpp:36-66 | A removal comes after at least three strikes if and only if the counter of that client did not start at 1 or 2, after exactly three if and only if it started at 0. |
| `XrceSweep.OneStrikeIsEnough` | Micro-XRCE-DDS-Agent/src/cpp/processor/Processor.cpp:979-1041 | A run in which a client whose counter started at 2 is removed after one unanswered request. |
| `XrceSweep.HardIff` | Micro-XRCE-DDS-Agent/src/cpp/Root.cpp:52-156 | A client that is there has hard liveliness if and only if the creation that built it found no client under the key and asked for it; its dead time is then the timeout asked for, else 30000 ms, and its session that of the creation. |
| `XrceSweep.HardClientRebuilt` | Micro-XRCE-DDS-Agent/src/cpp/Root.cpp:52-156 | A run in which a client that asks for hard liveliness each time loses it by coming back under another session. |
| `XrceSweep.RunContinues` | Micro-XRCE-DDS-Agent/src/cpp/processor/Processor.cpp:979-1041 | A row of steps taken by an object continues the run that it stands at the end of, so the theorems over runs reach it. |
| `XrceSweep.TriesAtMostThree` | Micro-XRCE-DDS-Agent/src/cpp/processor/Processor.cpp:979-1041 | With counters starting at zero, no try counter ever exceeds 3. |
| `XrceSweep.CounterCountsStrikes` | Micro-XRCE-DDS-Agent/src/cpp/client/ProxyClient.cpp:746-767 | In every reachable state the try counter is its start value plus the strikes since the last renewal. |
| `XrceSweep.RebuiltClientEscapesSweep` | Micro-XRCE-DDS-Agent/src/cpp/Root.cpp:52-156 | A client built over a present one, or without asking for hard liveliness, is not asked or removed by any visit until it is built again, whatever other messages come. |
| `XrceLiveliness.VisitOutcome` | Micro-XRCE-DDS-Agent/src/cpp/processor/Processor.cpp:979-1041 | What a visit does, from the events: the client is dead once some visit since its last sign of life came at least its allowed silence after it; alive it gets heartbeats if its endpoint is known; dead with hard liveliness it is asked, or removed once it has as many strikes as its counter asks for; otherwise nothing happens. |
| `XrceLiveliness.DeadIffSilent` | Micro-XRCE-DDS-Agent/src/cpp/client/ProxyClient.cpp:746-757 | On a clock that never runs back, a client is dead at a visit if and only if its last sign of life is at least the allowed silence ago. |
| `XrceLiveliness.FirstStrikeAfterSilence` | Micro-XRCE-DDS-Agent/src/cpp/processor/Processor.cpp:979-1041 | The first strike since the last sign of life comes at least the timeout after it that the building creation asked for. |
| `XrceLiveliness.RemovalAfterSilence` | Micro-XRCE-DDS-Agent/src/cpp/processor/Processor.cpp:979-1041 | A removed client asked for hard liveliness, was first struck only after the silence it asked for, and gave no sign of life since. |
| `XrceLiveliness.StampIsLastSign` | Micro-XRCE-DDS-Agent/src/cpp/client/ProxyClient.cpp:759-767 | The stored time of a client is that of the last accepted packet or of the creation that built it. |
| `XrceLiveliness.AliveIff` | Micro-XRCE-DDS-Agent/src/cpp/client/ProxyClient.cpp:746-757 | A client is stored as alive if and only if no visit since its last sign of life came after the allowed silence. |
| `XrceLiveliness.CreateAnswers` | Micro-XRCE-DDS-Agent/src/cpp/Root.cpp:52-156 | Each status of a creation, with exactly the representations that get it. |
| `XrceLiveliness.DeleteAnswers` | Micro-XRCE-DDS-Agent/src/cpp/Root.cpp:176-204 | A deletion answers whether the client was there. |
| `XrceLiveliness.BuildsIff` | Micro-XRCE-DDS-Agent/src/cpp/Root.cpp:52-156 | A creation builds a client if and only if it is valid and no client built under the same session is there. |
| `XrceLiveliness.PresentIff` | Micro-XRCE-DDS-Agent/src/cpp/Root.cpp:52-204 | In every run a client is there if and only if some creation built it and no deletion, removal or reset came since. |
| `XrceAgent.RootTable.AddClient` | Micro-XRCE-DDS-Agent/src/cpp/Root.cpp:52-156 | Table, cursor and status are those of the specified creation. |
| `XrceAgent.RootTable.RemoveClient` | Micro-XRCE-DDS-Agent/src/cpp/Root.cpp:176-204 | Table, cursor and status are those of the specified deletion. |
| `XrceAgent.RootTable.GetNextClient` | Micro-XRCE-DDS-Agent/src/cpp/Root.cpp:218-233 | Cursor and returned client are the specified ones, and a returned client is live. |
| `XrceAgent.RootTable.ResetTable` | Micro-XRCE-DDS-Agent/src/cpp/Root.cpp:303-313 | The table is empty and the cursor at the end. |
| `XrceAgent.RootTable.UpdateState` | Micro-XRCE-DDS-Agent/src/cpp/client/ProxyClient.cpp:759-767 | An accepted packet renews the client, and only it. |
| `XrceAgent.RootTable.GetState` | Micro-XRCE-DDS-Agent/src/cpp/client/ProxyClient.cpp:746-757 | Only an alive client whose dead time has passed changes, to dead; `AliveIff` says when that is. |
| `XrceAgent.RootTable.CheckOne` | Micro-XRCE-DDS-Agent/src/cpp/processor/Processor.cpp:982-1039 | The branches on endpoint, state and hard liveliness change only the visited client, as the liveliness rule says, and not the cursor. |
| `XrceAgent.RootTable.VisitClient` | Micro-XRCE-DDS-Agent/src/cpp/processor/Processor.cpp:979-1041 | One turn of the loop is exactly the visit step of the run theorems: table, cursor, returned client and action. |
| `XrceAgent.RootTable.CheckHeartbeats` | Micro-XRCE-DDS-Agent/src/cpp/processor/Processor.cpp:979-1041 | The loop is a row of visit steps that ends at the end of the table; undisturbed, it checks every client at or after the old cursor once, no other, and leaves the cursor at the first client. |
| `XrceObjects.ProxyClient.CreateObject` | Micro-XRCE-DDS-Agent/src/cpp/client/ProxyClient.cpp:87-174 | For every creation mode and middleware outcome, map and status are those of Table 7 of DDS-XRCE. |
| `XrceObjects.ProxyClient.CreateByKind` | Micro-XRCE-DDS-Agent/src/cpp/client/ProxyClient.cpp:226-271 | Unsupported kinds change neither map nor status; supported ones are made, or refused with their error. |
| `XrceObjects.ProxyClient.CreateKind` | Micro-XRCE-DDS-Agent/src/cpp/client/ProxyClient.cpp:273-718 | A missing parent or a failing middleware leaves the map unchanged with its own status; otherwise exactly the new object is added. |
| `XrceObjects.ProxyClient.DeleteObjectUnlock` | Micro-XRCE-DDS-Agent/src/cpp/client/ProxyClient.cpp:720-744 | Exactly the key is removed, and the result says whether it was there. |
| `XrceObjects.ProxyClient.Recreate` | Micro-XRCE-DDS-Agent/src/cpp/client/ProxyClient.cpp:119-172 | Deleting and creating again gives what creating gives, also when creation then fails. |
| `XrceObjects.OnlyTheKeyChanges` | Micro-XRCE-DDS-Agent/src/cpp/client/ProxyClient.cpp:87-174 | Only the computed key can change; a match, mismatch or already-exists leaves the map as it was; STATUS_ERR_RESOURCES is unreachable. |
| `XrceObjects.OkMeansMade` | Micro-XRCE-DDS-Agent/src/cpp/client/ProxyClient.cpp:87-174 | For the supported kinds STATUS_OK holds if and only if the object just made sits at the key; for any other kind it comes without an object, and whatever sat at the key is gone. |
| `XrceObjects.UnsupportedKindErases` | Micro-XRCE-DDS-Agent/src/cpp/client/ProxyClient.cpp:115-122 | A run in which a CREATE of an unknown kind erases a participant and answers STATUS_OK. |
| `XrceObjects.KeysNameTheirKind` | Micro-XRCE-DDS-Agent/src/cpp/client/ProxyClient.cpp:226-271 | In every reachable state the low nibble of a key is the kind of its object. |
| `XrceObjects.KeyNibble` | Micro-XRCE-DDS-Agent/src/cpp/client/ProxyClient.cpp:87-105 | The computed key has the bits of the kind and above the low nibble those of the prefix; for the supported kinds the low nibble is the kind. |
| `XrceObjects.AnswerIff` | Micro-XRCE-DDS-Agent/src/cpp/client/ProxyClient.cpp:87-174 | Each of the six answers, with exactly the combinations of mode, match, kind, parent and middleware outcome that get it, and the map that goes with it. |
| `XrceObjects.PresentIff` | Micro-XRCE-DDS-Agent/src/cpp/client/ProxyClient.cpp:87-174 | In every run an object is at a key if and only if some creation made it there and no later event made another or took it away, and it is the object of that creation. |
| `XrceTypes.HeaderLaw` | Micro-XRCE-DDS-Agent/src/cpp/types/MessageHeader.cpp:93-129 | Reading a written header at any position and before any suffix gives it back (with a zero key where none is on the wire) and stops right behind it; the size is exact. |
| `XrceTypes.AddressLaw` | Micro-XRCE-DDS-Agent/src/cpp/types/XRCETypes.cpp:861-932 | Round trip and exact size of every transport address. |
| `XrceTypes.PropertyLaw` | Micro-XRCE-DDS-Agent/src/cpp/types/XRCETypes.cpp:986-1010 | Round trip and exact size of a property. |
| `XrceTypes.PropertiesLaw` | Micro-XRCE-DDS-Agent/src/cpp/types/XRCETypes.cpp:1107-1140 | Round trip of property sequences of any length; the size loop counts exactly the elements. |
| `XrceTypes.OptPropertiesLaw` | Micro-XRCE-DDS-Agent/src/cpp/types/XRCETypes.cpp:1107-1140 | Round trip of the optional sequence with its flag and count. |
| `XrceTypes.OptPropertiesSize` | Micro-XRCE-DDS-Agent/src/cpp/types/XRCETypes.cpp:1092-1101 | The size misses exactly the count and, for an empty sequence, the padding before it. |
| `XrcePayloads.AgentLaw` | Micro-XRCE-DDS-Agent/src/cpp/types/XRCETypes.cpp:1215-1245 | Round trip of the AGENT representation. |
| `XrcePayloads.AgentSize` | Micro-XRCE-DDS-Agent/src/cpp/types/XRCETypes.cpp:1194-1213 | The number of bytes its size misses, none if and only if there are no properties. |
| `XrcePayloads.ClientLaw` | Micro-XRCE-DDS-Agent/src/cpp/types/XRCETypes.cpp:1107-1140 | Round trip of the CLIENT representation. |
| `XrcePayloads.ClientSize` | Micro-XRCE-DDS-Agent/src/cpp/types/XRCETypes.cpp:1082-1105 | The number of bytes its size misses, none if and only if there are no properties and it starts at an even position. |
| `XrcePayloads.RepLaw` | Micro-XRCE-DDS-Agent/src/cpp/types/XRCETypes.cpp:1565-1628 | Round trip and exact size of the representation unions with three and with two formats. |
| `XrcePayloads.VariantLaw` | Micro-XRCE-DDS-Agent/src/cpp/types/XRCETypes.cpp:5610-5708 | Round trip of every object variant. |
| `XrcePayloads.VariantSize` | Micro-XRCE-DDS-Agent/src/cpp/types/XRCETypes.cpp:5556-5608 | The number of bytes its size misses, and exactly when that is none. |
| `XrceSubmessages.CreateLaw` | Micro-XRCE-DDS-Agent/src/cpp/types/XRCETypes.cpp:8041-8051 | Round trip of CREATE at any position, before any suffix. |
| `XrceSubmessages.CreateSize` | Micro-XRCE-DDS-Agent/src/cpp/types/XRCETypes.cpp:8031-8039 | The number of bytes the CREATE size misses, and exactly when that is none. |
| `XrceSubmessages.ReadDataLaw` | Micro-XRCE-DDS-Agent/src/cpp/types/XRCETypes.cpp:6853-6915 | Round trip and exact size of READ_DATA. |
| `XrceSubmessages.DeliveryLaw` | Micro-XRCE-DDS-Agent/src/cpp/types/XRCETypes.cpp:6767-6795 | Round trip and exact size of the delivery control. |
| `XrceSubmessages.ActivityLaw` | Micro-XRCE-DDS-Agent/src/cpp/types/XRCETypes.cpp:6395-6457 | Round trip and exact size of every activity, with address sequences of any length. |
| `XrceSubmessages.InfoLaw` | Micro-XRCE-DDS-Agent/src/cpp/types/XRCETypes.cpp:6529-6563 | Reading a written INFO at any position, before any suffix, gives it back with the properties of an AGENT configuration dropped and stops right behind it; it is the written value if and only if there were none to drop. |
| `XrceSubmessages.InfoDropsAgentProperties` | Micro-XRCE-DDS-Agent/src/cpp/types/XRCETypes.cpp:1163-1170 | An INFO of an agent with one property comes back without it. |
| `XrceSubmessages.ConfigSize` | Micro-XRCE-DDS-Agent/src/cpp/types/XRCETypes.cpp:6508-6517 | The number of bytes that the size of the configuration misses. |
| `XrceSubmessages.InfoSize` | Micro-XRCE-DDS-Agent/src/cpp/types/XRCETypes.cpp:6508-6527 | The INFO size is exact if and only if the padding before the widest field of the activity takes up what the configuration misses. |
| `XrceSubmessages.AbsorbedIff` | Micro-XRCE-DDS-Agent/src/cpp/types/XRCETypes.cpp:5912-5925 | When bytes missing before an activity do not change where it ends, by kind of activity. |
| `XrceSubmessages.AcknackLaw` | Micro-XRCE-DDS-Agent/src/cpp/types/XRCETypes.cpp:9212-9235 | Round trip and exact size of ACKNACK. |
| `XrceSubmessages.HeartbeatLaw` | Micro-XRCE-DDS-Agent/src/cpp/types/XRCETypes.cpp:9291-9314 | Round trip and exact size of HEARTBEAT. |
| `XrceLayout.EncodeBytes` | Micro-XRCE-DDS-Agent/src/cpp/types/XRCETypes.cpp:9302-9307 | Byte i of a little-endian integer is its i-th digit to the base 256; big-endian is the reverse. |
| `XrceLayout.PaddingAligns` | Micro-XRCE-DDS-Agent/src/cpp/types/XRCETypes.cpp:9302-9307 | The padding leads to the next multiple of the size. |
| `XrceLayout.EncodeDecode` | Micro-XRCE-DDS-Agent/src/cpp/types/XRCETypes.cpp:9309-9314 | Any bytes are those of the integer that is read from them. |
| `XrceLayout.UIntReadIff` | Micro-XRCE-DDS-Agent/src/cpp/types/XRCETypes.cpp:9309-9314 | An integer is read if and only if its bytes lie at the next aligned position, in the byte order of the stream. |
| `XrceLayout.BoolReadIff` | Micro-XRCE-DDS-Agent/src/cpp/types/XRCETypes.cpp:1123-1140 | A flag is read from a byte 0 or 1 and from no other. |
| `XrceLayout.StringRead` | Micro-XRCE-DDS-Agent/src/cpp/types/XRCETypes.cpp:911-932 | A string is what its count covers, less a terminator at the end; a count beyond the buffer is refused. |
| `XrceLayout.KindTable` | Micro-XRCE-DDS-Agent/src/cpp/types/XRCETypes.cpp:5610-5658 | The kinds by number: which carry a parent, which do not, and which formats each can have. |
| `XrceLayout.RepReads` | Micro-XRCE-DDS-Agent/src/cpp/types/XRCETypes.cpp:1610-1628 | What is read behind the format byte, by format and kind. |
| `XrceLayout.HeaderBytes` | Micro-XRCE-DDS-Agent/src/cpp/types/MessageHeader.cpp:93-118 | A header is session, stream, the sequence number low byte first and, below session 128, the four bytes of the key, on a stream of either byte order. |
| `XrceLayout.HeartbeatBytes` | Micro-XRCE-DDS-Agent/src/cpp/types/XRCETypes.cpp:9302-9307 | A HEARTBEAT in either byte order, little-endian [first % 256, first / 256, last % 256, last / 256, stream]. |
| `XrceLayout.AcknackBytes` | Micro-XRCE-DDS-Agent/src/cpp/types/XRCETypes.cpp:9223-9228 | An ACKNACK in either byte order: first number, bitmap as it is, stream. |
| `XrceLayout.CreateStart` | Micro-XRCE-DDS-Agent/src/cpp/types/XRCETypes.cpp:8041-8045 | A CREATE starts with request id, object id and the number of the kind. |
| `XrceLayout.VariantStart` | Micro-XRCE-DDS-Agent/src/cpp/types/XRCETypes.cpp:5610-5658 | Every object variant starts with the number of its kind. |
| `XrceLayout.HeaderWire` | Micro-XRCE-DDS-Agent/src/cpp/types/MessageHeader.cpp:109-118 | At any position a header is its fields on the wire, little-endian whatever the stream. |
| `XrceLayout.AddressWire` | Micro-XRCE-DDS-Agent/src/cpp/types/XRCETypes.cpp:888-909 | A transport address is its format number and its fields, aligned, in the byte order of the stream. |
| `XrceLayout.PropertiesWire` | Micro-XRCE-DDS-Agent/src/cpp/types/XRCETypes.cpp:998-1002 | Properties of any number lie one behind the other, each as two strings. |
| `XrceLayout.OptPropertiesWire` | Micro-XRCE-DDS-Agent/src/cpp/types/XRCETypes.cpp:1107-1121 | The flag, the count and the properties. |
| `XrceLayout.AgentWire` | Micro-XRCE-DDS-Agent/src/cpp/types/XRCETypes.cpp:1215-1226 | The fields of an AGENT representation, in order. |
| `XrceLayout.ClientWire` | Micro-XRCE-DDS-Agent/src/cpp/types/XRCETypes.cpp:1107-1121 | The fields of a CLIENT representation, in order. |
| `XrceLayout.RepWire` | Micro-XRCE-DDS-Agent/src/cpp/types/XRCETypes.cpp:1590-1608 | The format number and its content. |
| `XrceLayout.VariantWire` | Micro-XRCE-DDS-Agent/src/cpp/types/XRCETypes.cpp:5610-5658 | Kind number, representation and, where the kind has one, the parent or the domain. |
| `XrceLayout.CreateWire` | Micro-XRCE-DDS-Agent/src/cpp/types/XRCETypes.cpp:8041-8045 | A CREATE is the request and the object. |
| `XrceLayout.ReadDataWire` | Micro-XRCE-DDS-Agent/src/cpp/types/XRCETypes.cpp:6878-6892 | The fields of READ_DATA with the optional filter and delivery control. |
| `XrceLayout.ActivityWire` | Micro-XRCE-DDS-Agent/src/cpp/types/XRCETypes.cpp:6419-6437 | The kind number of an activity and its fields, with addresses of any number. |
| `XrceLayout.InfoWire` | Micro-XRCE-DDS-Agent/src/cpp/types/XRCETypes.cpp:6529-6543 | The fields of INFO with the optional configuration and activity. |
| `XrceLayout.AcknackWire` | Micro-XRCE-DDS-Agent/src/cpp/types/XRCETypes.cpp:9223-9228 | The fields of ACKNACK at any position. |
| `XrceLayout.HeartbeatWire` | Micro-XRCE-DDS-Agent/src/cpp/types/XRCETypes.cpp:9302-9307 | The fields of HEARTBEAT at any position. |
| `XrceStream.CdrStream.SerializeHeader` | Micro-XRCE-DDS-Agent/src/cpp/types/MessageHeader.cpp:109-118 | The growing buffer gets exactly the bytes of `PutHeader`, which `XrceLayout` spells out field by field. |
| `XrceStream.CdrStream.DeserializeHeader` | Micro-XRCE-DDS-Agent/src/cpp/types/MessageHeader.cpp:120-129 | The advancing position yields the value and the end that `GetHeader` reads in that law, or nothing where the bytes run out. |
| `XrceStream.CdrStream.SerializeAcknack` | Micro-XRCE-DDS-Agent/src/cpp/types/XRCETypes.cpp:9223-9228 | The growing buffer gets exactly the bytes of `PutAcknack`, which `XrceLayout` spells out field by field. |
| `XrceStream.CdrStream.DeserializeAcknack` | Micro-XRCE-DDS-Agent/src/cpp/types/XRCETypes.cpp:9230-9235 | The advancing position yields the value and the end that `GetAcknack` reads in that law, or nothing where the bytes run out. |
| `XrceStream.CdrStream.SerializeHeartbeat` | Micro-XRCE-DDS-Agent/src/cpp/types/XRCETypes.cpp:9302-9307 | The growing buffer gets exactly the bytes of `PutHeartbeat`, which `XrceLayout` spells out field by field. |
| `XrceStream.CdrStream.DeserializeHeartbeat` | Micro-XRCE-DDS-Agent/src/cpp/types/XRCETypes.cpp:9309-9314 | The advancing position yields the value and the end that `GetHeartbeat` reads in that law, or nothing where the bytes run out. |
| `XrceStream.CdrStream.SerializeProperties` | Micro-XRCE-DDS-Agent/src/cpp/types/XRCETypes.cpp:998-1002 | The growing buffer gets exactly the bytes of `PutProperties`, which `XrceLayout` spells out field by field. |
| `XrceStream.CdrStream.DeserializeProperties` | Micro-XRCE-DDS-Agent/src/cpp/types/XRCETypes.cpp:1004-1008 | The advancing position yields the value and the end that `GetProperties` reads in that law, or nothing where the bytes run out. |
| `XrceStream.CdrStream.SerializeAgent` | Micro-XRCE-DDS-Agent/src/cpp/types/XRCETypes.cpp:1215-1226 | The growing buffer gets exactly the bytes of `PutAgent`, which `XrceLayout` spells out field by field. |
| `XrceStream.CdrStream.DeserializeAgent` | Micro-XRCE-DDS-Agent/src/cpp/types/XRCETypes.cpp:1228-1245 | The advancing position yields the value and the end that `GetAgent` reads in that law, or nothing where the bytes run out. |
| `XrceStream.CdrStream.SerializeClient` | Micro-XRCE-DDS-Agent/src/cpp/types/XRCETypes.cpp:1107-1121 | The growing buffer gets exactly the bytes of `PutClient`, which `XrceLayout` spells out field by field. |
| `XrceStream.CdrStream.DeserializeClient` | Micro-XRCE-DDS-Agent/src/cpp/types/XRCETypes.cpp:1123-1140 | The advancing position yields the value and the end that `GetClient` reads in that law, or nothing where the bytes run out. |
| `XrceStream.CdrStream.SerializeRep` | Micro-XRCE-DDS-Agent/src/cpp/types/XRCETypes.cpp:1590-1608 | The growing buffer gets exactly the bytes of `PutRep`, which `XrceLayout` spells out field by field. |
| `XrceStream.CdrStream.DeserializeRep` | Micro-XRCE-DDS-Agent/src/cpp/types/XRCETypes.cpp:1610-1628 | The advancing position yields the value and the end that `GetRep` reads in that law, or nothing where the bytes run out. |
| `XrceStream.CdrStream.SerializeVariant` | Micro-XRCE-DDS-Agent/src/cpp/types/XRCETypes.cpp:5610-5658 | The growing buffer gets exactly the bytes of `PutVariant`, which `XrceLayout` spells out field by field. |
| `XrceStream.CdrStream.DeserializeVariant` | Micro-XRCE-DDS-Agent/src/cpp/types/XRCETypes.cpp:5660-5708 | The advancing position yields the value and the end that `GetVariant` reads in that law, or nothing where the bytes run out. |
| `XrceStream.CdrStream.SerializeCreate` | Micro-XRCE-DDS-Agent/src/cpp/types/XRCETypes.cpp:8041-8045 | The growing buffer gets exactly the bytes of `PutCreate`, which `XrceLayout` spells out field by field. |
| `XrceStream.CdrStream.DeserializeCreate` | Micro-XRCE-DDS-Agent/src/cpp/types/XRCETypes.cpp:8047-8051 | The advancing position yields the value and the end that `GetCreate` reads in that law, or nothing where the bytes run out. |
| `XrceStream.CdrStream.SerializeDelivery` | Micro-XRCE-DDS-Agent/src/cpp/types/XRCETypes.cpp:6779-6785 | The growing buffer gets exactly the bytes of `PutDelivery`, which `XrceLayout` spells out field by field. |
| `XrceStream.CdrStream.DeserializeDelivery` | Micro-XRCE-DDS-Agent/src/cpp/types/XRCETypes.cpp:6787-6793 | The advancing position yields the value and the end that `GetDelivery` reads in that law, or nothing where the bytes run out. |
| `XrceStream.CdrStream.SerializeReadData` | Micro-XRCE-DDS-Agent/src/cpp/types/XRCETypes.cpp:6878-6892 | The growing buffer gets exactly the bytes of `PutReadData`, which `XrceLayout` spells out field by field. |
| `XrceStream.CdrStream.DeserializeReadData` | Micro-XRCE-DDS-Agent/src/cpp/types/XRCETypes.cpp:6894-6915 | The advancing position yields the value and the end that `GetReadData` reads in that law, or nothing where the bytes run out. |
| `XrceStream.CdrStream.SerializeAddress` | Micro-XRCE-DDS-Agent/src/cpp/types/XRCETypes.cpp:888-909 | The growing buffer gets exactly the bytes of `PutAddress`, which `XrceLayout` spells out field by field. |
| `XrceStream.CdrStream.DeserializeAddress` | Micro-XRCE-DDS-Agent/src/cpp/types/XRCETypes.cpp:911-932 | The advancing position yields the value and the end that `GetAddress` reads in that law, or nothing where the bytes run out. |
| `XrceStream.CdrStream.SerializeAddresses` | Micro-XRCE-DDS-Agent/src/cpp/types/XRCETypes.cpp:5927-5931 | The growing buffer gets exactly the bytes of `PutAddresses`, which `XrceLayout` spells out field by field. |
| `XrceStream.CdrStream.DeserializeAddresses` | Micro-XRCE-DDS-Agent/src/cpp/types/XRCETypes.cpp:5933-5937 | The advancing position yields the value and the end that `GetAddresses` reads in that law, or nothing where the bytes run out. |
| `XrceStream.CdrStream.SerializeActivity` | Micro-XRCE-DDS-Agent/src/cpp/types/XRCETypes.cpp:6419-6437 | The growing buffer gets exactly the bytes of `PutActivity`, which `XrceLayout` spells out field by field. |
| `XrceStream.CdrStream.DeserializeActivity` | Micro-XRCE-DDS-Agent/src/cpp/types/XRCETypes.cpp:6439-6457 | The advancing position yields the value and the end that `GetActivity` reads in that law, or nothing where the bytes run out. |
| `XrceStream.CdrStream.SerializeInfo` | Micro-XRCE-DDS-Agent/src/cpp/types/XRCETypes.cpp:6529-6543 | The growing buffer gets exactly the bytes of `PutInfo`, which `XrceLayout` spells out field by field. |
| `XrceStream.CdrStream.DeserializeInfo` | Micro-XRCE-DDS-Agent/src/cpp/types/XRCETypes.cpp:6545-6563 | The advancing position yields the value and the end that `GetInfo` reads in that law, or nothing where the bytes run out. |
| `XrceStream.CdrStream.DeserializeConfig` | Micro-XRCE-DDS-Agent/src/cpp/types/XRCETypes.cpp:6545-6554 | The configuration is read into a temporary and copied: the properties of an AGENT do not arrive. |
| `XrceRoundTrip.HeaderThereAndBack` | Micro-XRCE-DDS-Agent/src/cpp/types/MessageHeader.cpp:93-129 | Written to a stream and read back from it, the payload returns with a zero key where none is on the wire and the stream stands right before whatever was written behind it. |
| `XrceRoundTrip.CreateThereAndBack` | Micro-XRCE-DDS-Agent/src/cpp/types/XRCETypes.cpp:8031-8051 | Written to a stream and read back from it, the payload returns and the stream stands right before whatever was written behind it. |
| `XrceRoundTrip.ReadDataThereAndBack` | Micro-XRCE-DDS-Agent/src/cpp/types/XRCETypes.cpp:8433-8443 | Written to a stream and read back from it, the payload returns and the stream stands right before whatever was written behind it. |
| `XrceRoundTrip.InfoThereAndBack` | Micro-XRCE-DDS-Agent/src/cpp/types/XRCETypes.cpp:8365-8375 | Written to a stream and read back from it, the payload returns with the properties of an AGENT configuration dropped and the stream stands right before whatever was written behind it. |
| `XrceRoundTrip.AcknackThereAndBack` | Micro-XRCE-DDS-Agent/src/cpp/types/XRCETypes.cpp:9223-9235 | Written to a stream and read back from it, the payload returns and the stream stands right before whatever was written behind it. |
| `XrceRoundTrip.HeartbeatThereAndBack` | Micro-XRCE-DDS-Agent/src/cpp/types/XRCETypes.cpp:9302-9314 | Written to a stream and read back from it, the payload returns and the stream stands right before whatever was written behind it. |
| `XrceStream.HeaderSize` | Micro-XRCE-DDS-Agent/src/cpp/types/MessageHeader.cpp:93-107 | The accumulated alignment gives the size that the header law proves exact. |
| `XrceStream.ClientRepSize` | Micro-XRCE-DDS-Agent/src/cpp/types/XRCETypes.cpp:1082-1105 | The loop over the properties gives the size whose missing bytes `ClientSize` counts. |
| `NatNetDecoder.OptitrackClient.HandlePacket` | src/libmotioncapture/src/optitrack.cpp:385-404 | A packet with a well-formed frame and anything behind it yields exactly its bodies, markers and timestamps, whatever was decoded before; short packets and other messages change nothing. |
| `NatNetDecoder.OptitrackClient.DecodeFrame` | src/libmotioncapture/src/optitrack.cpp:404-718 | For every version and every well-formed frame laid out under the same gates: all rigid bodies, with zero error and untracked where the version lacks the field, unlabelled then labelled markers, the three timestamps; the pointer ends right behind the frame and no read leaves the packet. |
| `NatNetDecoder.OptitrackClient.DecodeAfterBodies` | src/libmotioncapture/src/optitrack.cpp:466-580 | Skeletons, assets, force plates and devices are passed by exactly their lengths; labelled markers are appended. |
| `NatNetDecoder.OptitrackClient.DecodeTail` | src/libmotioncapture/src/optitrack.cpp:583-646 | Force plates and devices with any channels are passed by exactly their lengths. |
| `NatNetDecoder.OptitrackClient.DecodeTimes` | src/libmotioncapture/src/optitrack.cpp:648-711 | The three timestamps are those of the frame where the version has them, else none. |
| `NatNetDecoder.ReadBodies` | src/libmotioncapture/src/optitrack.cpp:433-466 | The loop decodes every body over the element that the vector held. |
| `NatNetDecoder.CleanDecoded` | src/libmotioncapture/src/optitrack.cpp:433-466 | Fields that the version lacks are never written, so nothing of an older frame survives in the bodies. |
| `NatNetDecoder.ReadMarkers` | src/libmotioncapture/src/optitrack.cpp:422-431 | The loop yields the markers in order. |
| `NatNetDecoder.ReadLabeled` | src/libmotioncapture/src/optitrack.cpp:520-580 | The loop yields the positions of the labelled markers in order. |
| `NatNetDecoder.SkipMarkerSets` | src/libmotioncapture/src/optitrack.cpp:413-420 | Named marker sets are passed by exactly their lengths. |
| `NatNetDecoder.UnpackDataSize` | src/libmotioncapture/src/optitrack.cpp:25-40 | Four bytes are read from version 4.1 on, none before. |
| `NatNetLayout.Gates` | src/libmotioncapture/src/optitrack.cpp:404-718 | From which version on each field is sent, by number. |
| `NatNetLayout.PacketBytes` | src/libmotioncapture/src/optitrack.cpp:385-404 | A packet is its message number, 7 for a frame and 5 for descriptions, its length low byte first, and its payload. |
| `NatNetLayout.FrameBytes` | src/libmotioncapture/src/optitrack.cpp:404-466 | A frame is its number, the sections of marker sets, unlabelled markers and rigid bodies, and what lies behind them. |
| `NatNetLayout.SectionBytes` | src/libmotioncapture/src/optitrack.cpp:413-420 | A section is the number of its elements, from 4.1 on the number of their bytes, and the elements. |
| `NatNetLayout.ConcatAppends` | src/libmotioncapture/src/optitrack.cpp:413-466 | Elements lie one behind the other, in order. |
| `NatNetLayout.BodyBytes` | src/libmotioncapture/src/optitrack.cpp:433-466 | A rigid body is id, position, quaternion with the real part last, from 2.0 the error, from 2.6 the parameters. |
| `NatNetLayout.LabeledBytes` | src/libmotioncapture/src/optitrack.cpp:520-580 | A labelled marker is id, position, size, from 2.6 the parameters, from 3.0 the residual. |
| `NatNetLayout.PartBytes` | src/libmotioncapture/src/optitrack.cpp:413-646 | Marker sets, skeletons and devices with their counts and elements. |
| `NatNetLayout.TailBytes` | src/libmotioncapture/src/optitrack.cpp:466-646 | Skeletons from 2.1, assets from 4.1, labelled markers from 2.3, force plates from 2.9, devices from 2.11, in this order. |
| `NatNetLayout.TimesBytes` | src/libmotioncapture/src/optitrack.cpp:648-711 | Latency before 3.0, timecode, a timestamp of eight bytes from 2.7, three high-resolution times from 3.0, parameters. |
| `NatNetModel.RigidBodyDefinitions.ParseModelDef` | src/libmotioncapture/src/optitrack.cpp:87-234 | After a well-formed description packet of any version, with anything behind it, every id has the definition of the last dataset that describes it, or the one it had; other messages change nothing. |
| `NatNetModel.RigidBodyDefinitions.ParseDatasets` | src/libmotioncapture/src/optitrack.cpp:104-229 | The loop passes every dataset by exactly its length and keeps the last definition of every id. |
| `NatNetModel.RigidBodyDefinitions.ParseDataset` | src/libmotioncapture/src/optitrack.cpp:112-226 | One dataset: only a rigid body changes the map, and only at its id. |
| `NatNetModel.RigidBodyDefinitions.ParseDescription` | src/libmotioncapture/src/optitrack.cpp:124-226 | Marker sets, skeletons and sized unknown kinds are passed by exactly their length. |
| `NatNetModel.LastWinsDetermines` | src/libmotioncapture/src/optitrack.cpp:149-156 | The last-entry rule determines the whole map. |
| `NatNetModel.ReadBodyDef` | src/libmotioncapture/src/optitrack.cpp:137-179 | Name, ids and offsets of the description; markers and their names are passed by exactly their lengths. |
| `NatNetLayout.DatasetBytes` | src/libmotioncapture/src/optitrack.cpp:104-124 | A dataset is its kind, from 4.1 on its size, and its description. |
| `NatNetLayout.DescriptionBytes` | src/libmotioncapture/src/optitrack.cpp:137-179 | A rigid body's description is from 2.0 its name, ids and offset, from 3.0 its markers, from 4.0 their names. |
| `NatNetReport.ReportBodies` | src/libmotioncapture/src/optitrack.cpp:727-750 | Under each name the first tracked body that goes by it, with its definition, and nothing else; lookups change no definition. |
| `NatNetReport.NothingTracked` | src/libmotioncapture/src/optitrack.cpp:727-750 | In a version without the parameters field the report is empty, whatever frames came. |
| `NatNetReport.TrackedIsReported` | src/libmotioncapture/src/optitrack.cpp:727-750 | A single body with its tracked bit set is reported under the name of its definition. |
| `NatNetReport.ReportsIff` | src/libmotioncapture/src/optitrack.cpp:458-464 | Some frame of a version makes the client report a body if and only if the version sends the parameters. |
| `RingBuffer.Ring.Push` | src/px4_hummingbird_cmd/scripts/px4_multirotor_viewer.py:211-214 | The buffer stands for the history with the row appended. |
| `RingBuffer.Ring.Get` | src/px4_hummingbird_cmd/scripts/px4_multirotor_viewer.py:216-221 | Exactly the last min(n, cap) rows, in push order. |
| `RingBuffer.PushedRows` | src/px4_hummingbird_cmd/scripts/px4_multirotor_viewer.py:211-214 | The last rows after a push: the new one at the end, the oldest gone once full. |
| `OptiHealth.ArrivalsAreWindow` | src/px4_hummingbird_cmd/scripts/px4_multirotor_viewer.py:877-880 | With times that never run back, the trimmed arrival deque is the filter of all arrivals by the current cutoff. |
| `OptiHealth.DelaysAreWindow` | src/px4_hummingbird_cmd/scripts/px4_multirotor_viewer.py:893-897 | The delay deque is the filter of all finite delays by the cutoff of the last of them. |
| `OptiHealth.TrimIsFilterIff` | src/px4_hummingbird_cmd/scripts/px4_multirotor_viewer.py:878-880 | Popping old entries from the left filters the deque if and only if no old entry in it follows one that is not. |
| `OptiHealth.ArrivalsAreWindowIff` | src/px4_hummingbird_cmd/scripts/px4_multirotor_viewer.py:877-880 | After any log, with any clock, the arrival deque is the filter of all arrivals if and only if no old entry of the deque that the last event found follows one that is not, and every arrival popped before is old. |
| `OptiHealth.DelaysAreWindowIff` | src/px4_hummingbird_cmd/scripts/px4_multirotor_viewer.py:893-897 | The same for the delay deque at every message that takes a mean. |
| `OptiHealth.ArrivalsAreSuffix` | src/px4_hummingbird_cmd/scripts/px4_multirotor_viewer.py:877-892 | Whatever the clock does, the deque holds the last arrivals of the history. |
| `OptiHealth.DelaysAreSuffix` | src/px4_hummingbird_cmd/scripts/px4_multirotor_viewer.py:893-897 | Whatever the clock does, the deque holds the last finite delays of the history. |
| `OptiHealth.ClockJumpBreaksTheWindow` | src/px4_hummingbird_cmd/scripts/px4_multirotor_viewer.py:878-880 | A clock that jumps ahead and comes back makes the deque miss an arrival that lies in the window. |
| `OptiHealth.ClockStepBackBreaksTheWindow` | src/px4_hummingbird_cmd/scripts/px4_multirotor_viewer.py:878-880 | A clock that steps back makes the deque keep an arrival that lies before the cutoff. |
| `OptiHealth.RatesMatchHistory` | src/px4_hummingbird_cmd/scripts/px4_multirotor_viewer.py:882-889 | Row k of the rates is the number of arrivals of the full history in the window before the k-th sample over the window's length, and row k of the lost flags says whether that is too few. |
| `OptiHealth.SamplesListed` | src/px4_hummingbird_cmd/scripts/px4_multirotor_viewer.py:882-889 | The samples are listed completely and in order: exactly the events at which one was due. |
| `OptiHealth.DelaysListed` | src/px4_hummingbird_cmd/scripts/px4_multirotor_viewer.py:893-894 | The messages with a finite delay are listed completely and in order. |
| `OptiHealth.MeansMatchHistory` | src/px4_hummingbird_cmd/scripts/px4_multirotor_viewer.py:893-899 | Row k of the delays is the sum over the number of all finite delays of the full history in the window of the k-th message that has one. |
| `OptiHealth.DelayWindowNonEmpty` | src/px4_hummingbird_cmd/scripts/px4_multirotor_viewer.py:894-898 | The mean never divides by zero, whatever the clock does. |
| `OptiHealth.SampleSpacing` | src/px4_hummingbird_cmd/scripts/px4_multirotor_viewer.py:882-889 | Samples that are not forced are at least 0.04 s after any earlier sample. |
| `OptiHealth.SampledIff` | src/px4_hummingbird_cmd/scripts/px4_multirotor_viewer.py:882-889 | A sample is taken at exactly the events that force one or come 0.04 s or more after every sample before. |
| `OptiHealth.TotalIsSum` | src/px4_hummingbird_cmd/scripts/px4_multirotor_viewer.py:893-899 | Sum and length of the filtered window are those read off the log event by event. |
| `OptiHealth.SilenceIsLost` | src/px4_hummingbird_cmd/scripts/px4_multirotor_viewer.py:885-889 | After a window without arrivals the next sample says rate zero, and lost whenever a rate is asked for. |
| `OptiMonitor.Monitor.RecordTiming` | src/px4_hummingbird_cmd/scripts/px4_multirotor_viewer.py:891-900 | After a message, deques, last sample time and the three ring buffers are those of the whole log of events. |
| `OptiMonitor.Monitor.HealthTick` | src/px4_hummingbird_cmd/scripts/px4_multirotor_viewer.py:902-905 | The same after a health tick, forced or not. |
| `OptiMonitor.Monitor.RecordHealth` | src/px4_hummingbird_cmd/scripts/px4_multirotor_viewer.py:877-889 | The trimming loop and, if a sample is due, the pushed rate and lost flag. |
| `OptiMonitor.Monitor.RecordDelay` | src/px4_hummingbird_cmd/scripts/px4_multirotor_viewer.py:893-899 | The delay is added, the window trimmed and never empty, its mean pushed. |
| `OptiMonitor.Monitor.RatePlot` | src/px4_hummingbird_cmd/scripts/px4_multirotor_viewer.py:216-221 | The plotted rates are those of the last samples, in order, each that of the full history when time never runs back. |
| `OptiMonitor.Monitor.DelayPlot` | src/px4_hummingbird_cmd/scripts/px4_multirotor_viewer.py:216-221 | The plotted delays are those of the last finite ones, in order, each with the mean of the full history when time never runs back. |
| `OptiMonitor.DelayMean` | src/px4_hummingbird_cmd/scripts/px4_multirotor_viewer.py:898-898 | The mean lies between any bounds on the delays of its window. |

## Left out

- ThreeStrikes: assumes counters that start at zero, which the constructor does not ensure; RemovalNeedsStrikes has the count for any start value.
- TriesAtMostThree: assumes counters that start at zero, for the same reason.
- HandoffSetpointLaw: takes the ratio of the filter as any number between 0 and 1; that `pow` makes its power 0.01 is the hypothesis of its last part.
- BridgesAgree: the wobble of the Gazebo bridge is off, as it is by default.
- DecodeFrame: well-formed frames only; the code follows a malformed packet out of its buffer, and nothing is said about that.
- ParseModelDef: well-formed descriptions only, for the same reason; kinds other than marker set, rigid body and skeleton only where a size lets the code skip them.
- Ring.Get: a ring of capacity zero cannot be pushed to and is not modelled.
- Floating point: rounding, NaN headings and overflow; all arithmetic is on reals.
- Sine, cosine, square root, arc sine and arc tangent: any functions with their laws; the Eigen conversion from matrix to quaternion in the motion-capture node is not modelled.
- The command node's messages carry roll, pitch and yaw as a quaternion; setpoints and attitudes are kept as angles, and `RollPitchYaw` is the conversion.
- ReportBodies: the reported position is the pair of the body's position and the offset of its definition, since the sum is one of floats.
- A second reading of the steady clock within one tick is taken equal to the time of the tick.
- Messages, QoS, logging, diagnostics, sockets, serial ports, the Dynamixel SDK and Gazebo transport: a publication is an entry in a trace, a write always happens.
- `initial_return_to_zero`, port recovery and torque handling of the Dynamixel bridge.
- `LPF` and `HandoffFilters` are values, as the code stores and copies them by value; the fields that hold them are updated in place.
- Session streams, schedulers, the endpoint manager and threads of the agent: a visit of the sweep and a packet are atomic steps.
- The eight `create_*` functions of a proxy client are one operation with the parent kind as parameter; middleware outcomes and `matched()` are arbitrary.
- fastcdr is not part of this repository: its primitives are modelled from plain CDR; padding bytes are zero, and where it throws, reading yields nothing.
- The size calculators other than those of the header and of CLIENT are functions of the starting alignment instead of loops over a variable.
- The remaining payloads (DELETE, STATUS, GET_INFO, DATA, timestamps), the `*_Binary` types and `DataRepresentation`.
- Lengths of marker arrays whose byte count exceeds a 32-bit integer; no UDP packet can hold them.
- The legacy and closed-source motion-capture clients, the Qt user interface, replay and bindings.
