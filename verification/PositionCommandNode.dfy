/** The offboard command node as the object that ROS calls back (`class Px4PositionCommand`). */
module PositionCommandNode {
  import opened Options
  import opened Params
  import opened Angles
  import opened LowPass
  import opened Paths
  import opened PositionCommand

  class Px4PositionCommand {
    const cfg: Config

    var controlMode: ControlMode
    var previousDdsControlEnabled: bool
    var controllerMode: Input<Source>
    var localPosition: Input<LocalPosition>
    var vehicleAttitude: Input<Attitude>
    var vehicleStatus: Input<VehicleStatus>
    var lastOffboardRequest: Option<real>
    var lastArmRequest: Option<real>
    var lastTarget: TargetCmd
    var handoffFilters: HandoffFilters
    var trajectoryStart: real
    var posX: real
    var posY: real
    var posZ: real

    /** Everything published so far, in order, over all topics. */
    var published: seq<Output>

    /** The object's fields as the value that `PositionCommand` reasons about. */
    ghost function View(): Node
      reads this
    {
      Node(controlMode, previousDdsControlEnabled, controllerMode, localPosition, vehicleAttitude, vehicleStatus,
           lastOffboardRequest, lastArmRequest, lastTarget, handoffFilters, trajectoryStart, posX, posY, posZ)
    }

    constructor (cfg: Config)
      ensures this.cfg == cfg && View() == Init(cfg) && published == []
    {
      this.cfg := cfg;
      controlMode, previousDdsControlEnabled := WaitOffboard, false;
      controllerMode := Input(false, Rc, 0.0);
      localPosition := Input(false, LocalPosition(0.0, 0.0, 0.0, 0.0, false, false), 0.0);
      vehicleAttitude := Input(false, Attitude(true, 0.0, 0.0), 0.0);
      vehicleStatus := Input(false, VehicleStatus(false, false), 0.0);
      lastOffboardRequest, lastArmRequest := None, None;
      lastTarget := ZERO_TARGET;
      var f := Make(HANDOFF_RUNTIME, cfg.ratio);
      handoffFilters := HandoffFilters(f, f, f, f, f, f);
      trajectoryStart, posX, posY, posZ := 0.0, 0.0, 0.0, 0.0;
      published := [];
    }

    method ControllerModeCallback(now: real, message: Source)
      modifies this
      ensures View() == Step(cfg, old(View()), SourceMsg(now, message)).0 && published == old(published)
    {
      controllerMode := Input(true, message, now);
    }

    method LocalPositionCallback(now: real, message: LocalPosition)
      modifies this
      ensures View() == Step(cfg, old(View()), PositionMsg(now, message)).0 && published == old(published)
    {
      localPosition := Input(true, message, now);
    }

    method VehicleAttitudeCallback(now: real, message: Attitude)
      modifies this
      ensures View() == Step(cfg, old(View()), AttitudeMsg(now, message)).0 && published == old(published)
    {
      vehicleAttitude := Input(true, message, now);
    }

    method VehicleStatusCallback(now: real, message: VehicleStatus)
      modifies this
      ensures View() == Step(cfg, old(View()), StatusMsg(now, message)).0 && published == old(published)
    {
      vehicleStatus := Input(true, message, now);
    }

    method StartRC2DDSHandoff(now: real)
      modifies this
      ensures View() == StartHandoff(old(View()), now) && published == old(published)
    {
      var start := InitialPose();
      if PositionFresh(localPosition, now) {
        var p := localPosition.value;
        start := start.(x := p.x, y := p.y, z := p.z, yaw := p.heading);
      }
      lastTarget := start;
      handoffFilters := handoffFilters.Reset(start);
      controlMode := Handoff;
    }

    method WaitForArm(now: real)
      modifies this
      ensures View() == WaitArmTick(cfg, old(View()), now).0
      ensures published == old(published) + WaitArmTick(cfg, old(View()), now).1
    {
      var vehicleArmed := vehicleStatus.value.armed;
      if !vehicleArmed && cfg.autoArm {
        if Elapsed(lastArmRequest, now, MESSAGE_TIMEOUT_SEC + COMMAND_REPEAT_SEC) {
          published := published + [ArmVehicle];
          lastArmRequest := Some(now);
        }
        return;
      }
      StartRC2DDSHandoff(now);
    }

    method WaitForOffboard(now: real)
      modifies this
      ensures View() == WaitOffboardTick(cfg, old(View()), now).0
      ensures published == old(published) + WaitOffboardTick(cfg, old(View()), now).1
    {
      if now < COMMAND_DELAY_SEC { return; }
      if !vehicleStatus.value.offboard {
        if cfg.autoOffboard && Elapsed(lastOffboardRequest, now, COMMAND_REPEAT_SEC) {
          published := published + [SetOffboard];
          lastOffboardRequest := Some(now);
        }
        return;
      }
      controlMode := WaitArm;
      WaitForArm(now);
    }

    method FollowPath(now: real)
      modifies this
      ensures View() == PathTick(cfg, old(View()), now).0
      ensures published == old(published) + PathTick(cfg, old(View()), now).1
    {
      var target := (cfg.path)(now - trajectoryStart);
      target := target.(x := posX + target.x, y := posY + target.y, z := posZ + target.z);
      lastTarget := target;
      published := published + [PathSetpoint(target, cfg.feedVelocity)];
    }

    /** RC2DDS_handoff of utils.hpp: the yaw is unwrapped once more, towards the filter. */
    method UpdateFilters(initialPose: TargetCmd) returns (command: TargetCmd)
      modifies this`handoffFilters
      ensures var yaw := Unwrap(initialPose.yaw, old(handoffFilters).yaw.y);
              handoffFilters == old(handoffFilters).Update(initialPose.(yaw := yaw))
      ensures command == handoffFilters.Command()
    {
      hide HandoffFilters.Update, Unwrap;
      var yaw := UnwrapNear(initialPose.yaw, handoffFilters.yaw.y);
      handoffFilters := handoffFilters.Update(initialPose.(yaw := yaw));
      command := handoffFilters.Command();
    }

    method RC2DDSHandoff(now: real)
      modifies this
      ensures View() == HandoffTick(old(View()), now).0
      ensures published == old(published) + HandoffTick(old(View()), now).1
    {
      hide InitialPoseReached, HandoffFilters.Update, HandoffFilters.Reset, HandoffFilters.Command, Unwrap;
      var initialTarget := InitialPose();
      var yaw := UnwrapNear(initialTarget.yaw, lastTarget.yaw);
      initialTarget := initialTarget.(yaw := yaw);
      assert initialTarget == HandoffGoal(View());

      lastTarget := UpdateFilters(initialTarget);
      published := published + [HandoffSetpoint(lastTarget)];

      if !InitialPoseReached(localPosition, vehicleAttitude, initialTarget, now) { return; }
      posX, posY, posZ := INITIAL_X, INITIAL_Y, INITIAL_Z;
      trajectoryStart := now;
      controlMode := PathActive;
      lastTarget := initialTarget;
    }

    method SwitchToPositionControl()
      modifies this
      ensures View() == old(View()).(mode := WaitOffboard) && published == old(published) + [SetPosctl]
    {
      published := published + [SetPosctl];
      controlMode := WaitOffboard;
    }

    method OnTick(now: real)
      modifies this
      ensures View() == Step(cfg, old(View()), Tick(now)).0
      ensures published == old(published) + Step(cfg, old(View()), Tick(now)).1
    {
      hide InitialPoseReached, HandoffFilters.Update, HandoffFilters.Reset, Unwrap;
      var ddsControlEnabled := Fresh(controllerMode, now) && controllerMode.value == Dds;
      var statusFresh := Fresh(vehicleStatus, now);

      if previousDdsControlEnabled && !ddsControlEnabled && (controlMode == PathActive || controlMode == Handoff) {
        SwitchToPositionControl();
      }
      previousDdsControlEnabled := ddsControlEnabled;

      if ddsControlEnabled {
        published := published + [OffboardControlMode];
      }
      if !ddsControlEnabled { return; }

      if !statusFresh {
        if controlMode == PathActive { controlMode := WaitOffboard; }
        return;
      }

      var offboardModeActive := vehicleStatus.value.offboard;
      var armNotReady := cfg.autoArm && !vehicleStatus.value.armed;
      if controlMode == PathActive && (!offboardModeActive || armNotReady) {
        controlMode := if offboardModeActive then WaitArm else WaitOffboard;
      }

      match controlMode {
        case WaitOffboard => WaitForOffboard(now);
        case WaitArm => WaitForArm(now);
        case PathActive => FollowPath(now);
        case Handoff => RC2DDSHandoff(now);
      }
    }
  }
}
