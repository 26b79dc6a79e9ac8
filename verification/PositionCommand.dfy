/**
 The offboard command node (`px4_position_cmd.cpp`) as a value: its state, and what each callback
 and each control tick makes of it. `PositionCommandNode` holds the same node as a mutable object.
 */
module PositionCommand {
  import opened Options
  import opened Params
  import opened Angles
  import opened LowPass
  import opened Paths
  import opened TrigPaths
  import StepPath

  datatype ControlMode = WaitOffboard | WaitArm | PathActive | Handoff

  datatype Source = Rc | Dds

  datatype LocalPosition = LocalPosition(x: real, y: real, z: real, heading: real, xyValid: bool, zValid: bool)

  /** `finite` is the isfinite test on the four components, the angles are those of quatToRpy. */
  datatype Attitude = Attitude(finite: bool, roll: real, pitch: real)

  /** nav_state == OFFBOARD and arming_state == ARMED. */
  datatype VehicleStatus = VehicleStatus(offboard: bool, armed: bool)

  /** A subscription: the has_ flag, the last message and its arrival time. */
  datatype Input<+T> = Input(seen: bool, value: T, time: real)

  datatype HandoffFilters = HandoffFilters(x: Lpf, y: Lpf, z: Lpf, roll: Lpf, pitch: Lpf, yaw: Lpf) {
    function Reset(c: TargetCmd): HandoffFilters {
      HandoffFilters(x.Reset(c.x), y.Reset(c.y), z.Reset(c.z),
                     roll.Reset(c.roll), pitch.Reset(c.pitch), yaw.Reset(c.yaw))
    }

    function Update(c: TargetCmd): HandoffFilters {
      HandoffFilters(x.Update(c.x), y.Update(c.y), z.Update(c.z),
                     roll.Update(c.roll), pitch.Update(c.pitch), yaw.Update(c.yaw))
    }

    function Command(): TargetCmd {
      TargetCmd(x.y, y.y, z.y, 0.0, 0.0, roll.y, pitch.y, yaw.y)
    }
  }

  /** Parameters of the node; `ratio` is pow(0.01, 1 / (handoff_runtime * RATE_HZ)). */
  datatype Config = Config(path: real -> TargetCmd, feedVelocity: bool, autoOffboard: bool, autoArm: bool, ratio: real)

  datatype Node = Node(
    mode: ControlMode,
    previousDds: bool,
    source: Input<Source>,
    position: Input<LocalPosition>,
    attitude: Input<Attitude>,
    status: Input<VehicleStatus>,
    offboardRequest: Option<real>,  // None stands for minus infinity
    armRequest: Option<real>,
    lastTarget: TargetCmd,
    filters: HandoffFilters,
    trajectoryStart: real,
    offsetX: real, offsetY: real, offsetZ: real)

  datatype Output =
    | OffboardControlMode
    | SetOffboard
    | ArmVehicle
    | SetPosctl
    | HandoffSetpoint(target: TargetCmd)
    | PathSetpoint(target: TargetCmd, feedVelocity: bool)

  datatype Event =
    | SourceMsg(time: real, source: Source)
    | PositionMsg(time: real, position: LocalPosition)
    | AttitudeMsg(time: real, attitude: Attitude)
    | StatusMsg(time: real, status: VehicleStatus)
    | Tick(time: real)

  function Init(cfg: Config): Node {
    var f := Make(HANDOFF_RUNTIME, cfg.ratio);
    Node(WaitOffboard, false,
         Input(false, Rc, 0.0),
         Input(false, LocalPosition(0.0, 0.0, 0.0, 0.0, false, false), 0.0),
         Input(false, Attitude(true, 0.0, 0.0), 0.0),
         Input(false, VehicleStatus(false, false), 0.0),
         None, None, ZERO_TARGET, HandoffFilters(f, f, f, f, f, f), 0.0, 0.0, 0.0, 0.0)
  }

  function InitialPose(): TargetCmd {
    TargetCmd(INITIAL_X, INITIAL_Y, INITIAL_Z, 0.0, 0.0, INITIAL_ROLL, INITIAL_PITCH, INITIAL_YAW)
  }

  predicate Fresh<T>(i: Input<T>, now: real) {
    i.seen && now - i.time <= MESSAGE_TIMEOUT_SEC
  }

  predicate PositionFresh(p: Input<LocalPosition>, now: real) {
    Fresh(p, now) && p.value.xyValid && p.value.zValid
  }

  predicate DdsEnabled(n: Node, now: real) {
    Fresh(n.source, now) && n.source.value == Dds
  }

  /** Time since a request that may never have been made. */
  predicate Elapsed(last: Option<real>, now: real, period: real) {
    last.None? || now - last.value >= period
  }

  /** initial_pose_reached; the norm of the position error is compared by its square. */
  predicate InitialPoseReached(position: Input<LocalPosition>, attitude: Input<Attitude>, target: TargetCmd,
                               now: real) {
    var p, a := position.value, attitude.value;
    var (dx, dy, dz) := (p.x - target.x, p.y - target.y, p.z - target.z);
    && PositionFresh(position, now)
    && Fresh(attitude, now) && a.finite
    && dx * dx + dy * dy + dz * dz <= POS_TOL * POS_TOL
    && AngleError(p.heading, target.yaw) <= YAW_TOL
    && AngleError(a.roll, target.roll) <= ATT_TOL
    && AngleError(a.pitch, target.pitch) <= ATT_TOL
  }

  /** start_RC2DDS_handoff: the filters restart from the vehicle, or from the goal when it is not known. */
  function HandoffStart(n: Node, now: real): TargetCmd {
    var p := n.position.value;
    if PositionFresh(n.position, now) then InitialPose().(x := p.x, y := p.y, z := p.z, yaw := p.heading)
    else InitialPose()
  }

  function StartHandoff(n: Node, now: real): Node {
    var start := HandoffStart(n, now);
    n.(lastTarget := start, filters := n.filters.Reset(start), mode := Handoff)
  }

  function WaitArmTick(cfg: Config, n: Node, now: real): (Node, seq<Output>) {
    if !n.status.value.armed && cfg.autoArm then
      if Elapsed(n.armRequest, now, MESSAGE_TIMEOUT_SEC + COMMAND_REPEAT_SEC)
      then (n.(armRequest := Some(now)), [ArmVehicle])
      else (n, [])
    else (StartHandoff(n, now), [])
  }

  function WaitOffboardTick(cfg: Config, n: Node, now: real): (Node, seq<Output>) {
    if now < COMMAND_DELAY_SEC then (n, [])
    else if !n.status.value.offboard then
      if cfg.autoOffboard && Elapsed(n.offboardRequest, now, COMMAND_REPEAT_SEC)
      then (n.(offboardRequest := Some(now)), [SetOffboard])
      else (n, [])
    else WaitArmTick(cfg, n.(mode := WaitArm), now)
  }

  /** The five named paths, with the library's sine and cosine; any other name holds the origin of the path frame. */
  function PathNamed(name: string, sin: real -> real, cos: real -> real): real -> TargetCmd {
    if name == "pos" then PosPath
    else if name == "att" then (t: real) => AttPath(sin, t)
    else if name == "step_att" then StepPath.StepAttPath
    else if name == "circle_demo" then (t: real) => CircleDemo(sin, cos, t)
    else if name == "demo_straight" then DemoStraight
    else (t: real) => ZERO_TARGET
  }

  /** The path that is followed, and whether its velocity is published with it. */
  ghost predicate Follows(cfg: Config, name: string, sin: real -> real, cos: real -> real) {
    cfg.path == PathNamed(name, sin, cos) && cfg.feedVelocity == (name == "pos" || name == "demo_straight")
  }

  function Shifted(p: TargetCmd, x: real, y: real, z: real): TargetCmd {
    p.(x := x + p.x, y := y + p.y, z := z + p.z)
  }

  function PathTick(cfg: Config, n: Node, now: real): (Node, seq<Output>) {
    var target := Shifted((cfg.path)(now - n.trajectoryStart), n.offsetX, n.offsetY, n.offsetZ);
    (n.(lastTarget := target), [PathSetpoint(target, cfg.feedVelocity)])
  }

  /** The goal of a handoff tick, with the yaw unwrapped towards the last command. */
  function HandoffGoal(n: Node): TargetCmd {
    InitialPose().(yaw := Unwrap(INITIAL_YAW, n.lastTarget.yaw))
  }

  function HandoffTick(n: Node, now: real): (Node, seq<Output>) {
    var goal := HandoffGoal(n);
    var filters := n.filters.Update(goal.(yaw := Unwrap(goal.yaw, n.filters.yaw.y)));
    var n' := n.(filters := filters, lastTarget := filters.Command());
    var output := [HandoffSetpoint(filters.Command())];
    if !InitialPoseReached(n.position, n.attitude, goal, now) then (n', output)
    else (n'.(offsetX := INITIAL_X, offsetY := INITIAL_Y, offsetZ := INITIAL_Z,
              trajectoryStart := now, mode := PathActive, lastTarget := goal), output)
  }

  /** Neither in OFFBOARD nor, if the node arms by itself, armed: a path may not continue. */
  predicate Ready(cfg: Config, n: Node) {
    n.status.value.offboard && (cfg.autoArm ==> n.status.value.armed)
  }

  function LeavePath(cfg: Config, n: Node): Node {
    if n.mode == PathActive && !Ready(cfg, n)
    then n.(mode := if n.status.value.offboard then WaitArm else WaitOffboard)
    else n
  }

  function ModeTick(cfg: Config, n: Node, now: real): (Node, seq<Output>) {
    match n.mode
    case WaitOffboard => WaitOffboardTick(cfg, n, now)
    case WaitArm => WaitArmTick(cfg, n, now)
    case PathActive => PathTick(cfg, n, now)
    case Handoff => HandoffTick(n, now)
  }

  /** on_tick. */
  function ControlTick(cfg: Config, n: Node, now: real): (Node, seq<Output>) {
    var dds := DdsEnabled(n, now);
    if !dds then
      var lost := n.previousDds && (n.mode == PathActive || n.mode == Handoff);
      (n.(previousDds := false, mode := if lost then WaitOffboard else n.mode), if lost then [SetPosctl] else [])
    else if !Fresh(n.status, now) then
      (n.(previousDds := true, mode := if n.mode == PathActive then WaitOffboard else n.mode), [OffboardControlMode])
    else
      var (n', output) := ModeTick(cfg, LeavePath(cfg, n.(previousDds := true)), now);
      (n', [OffboardControlMode] + output)
  }

  function Step(cfg: Config, n: Node, e: Event): (Node, seq<Output>) {
    match e
    case SourceMsg(t, s) => (n.(source := Input(true, s, t)), [])
    case PositionMsg(t, p) => (n.(position := Input(true, p, t)), [])
    case AttitudeMsg(t, a) => (n.(attitude := Input(true, a, t)), [])
    case StatusMsg(t, s) => (n.(status := Input(true, s, t)), [])
    case Tick(t) => ControlTick(cfg, n, t)
  }
}
