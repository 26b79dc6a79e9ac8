/** Safety of the offboard command node over whole runs: any interleaving of messages and control ticks. */
module PositionCommandRuns {
  import opened Options
  import opened Params
  import opened Reals
  import opened Angles
  import opened LowPass
  import opened Paths
  import opened TrigPaths
  import opened Trigonometry
  import opened PositionCommand
  import opened CommandHistory
  import StepPath

  /** The node before event i of a run. */
  ghost function At(cfg: Config, run: seq<Event>, i: nat): Node
    requires i <= |run|
  {
    if i == 0 then Init(cfg) else Step(cfg, At(cfg, run, i - 1), run[i - 1]).0
  }

  /** What event i publishes. */
  ghost function Published(cfg: Config, run: seq<Event>, i: nat): seq<Output>
    requires i < |run|
  {
    Step(cfg, At(cfg, run, i), run[i]).1
  }

  /** Event times never run backwards and start after the node did. */
  ghost predicate Timed(run: seq<Event>) {
    && (forall i :: 0 <= i < |run| ==> 0.0 <= run[i].time)
    && (forall i, j :: 0 <= i < j < |run| ==> run[i].time <= run[j].time)
  }

  predicate IsSetpoint(o: Output) {
    o.HandoffSetpoint? || o.PathSetpoint?
  }

  ghost predicate Publishes(cfg: Config, run: seq<Event>, i: nat, o: Output) {
    i < |run| && o in Published(cfg, run, i)
  }

  // ---------------------------------------------------------------- what a tick sees

  lemma StepInputs(cfg: Config, n: Node, e: Event)
    ensures var n' := Step(cfg, n, e).0;
            && n'.source == (if e.SourceMsg? then Input(true, e.source, e.time) else n.source)
            && n'.position == (if e.PositionMsg? then Input(true, e.position, e.time) else n.position)
            && n'.attitude == (if e.AttitudeMsg? then Input(true, e.attitude, e.time) else n.attitude)
            && n'.status == (if e.StatusMsg? then Input(true, e.status, e.time) else n.status)
  {
    hide InitialPoseReached, HandoffFilters.Update, HandoffFilters.Reset, Unwrap;
  }

  /** Every input of the node holds the last message of its kind. */
  lemma {:induction false} InputsAreLastMessages(cfg: Config, run: seq<Event>, k: nat)
    requires k <= |run|
    ensures var n := At(cfg, run, k);
            && n.source == (match LastBefore(run, k, IsSource)
                            case Some(i) => Input(true, run[i].source, run[i].time)
                            case None => Init(cfg).source)
            && n.position == (match LastBefore(run, k, IsPosition)
                              case Some(i) => Input(true, run[i].position, run[i].time)
                              case None => Init(cfg).position)
            && n.attitude == (match LastBefore(run, k, IsAttitude)
                              case Some(i) => Input(true, run[i].attitude, run[i].time)
                              case None => Init(cfg).attitude)
            && n.status == (match LastBefore(run, k, IsStatus)
                            case Some(i) => Input(true, run[i].status, run[i].time)
                            case None => Init(cfg).status)
  {
    hide Step;
    if k > 0 {
      InputsAreLastMessages(cfg, run, k - 1);
      StepInputs(cfg, At(cfg, run, k - 1), run[k - 1]);
    }
  }

  /** The tests that a tick makes on its inputs are questions about the last messages and their age. */
  lemma TickSees(cfg: Config, run: seq<Event>, k: nat)
    requires k < |run|
    ensures var n, now := At(cfg, run, k), run[k].time;
            && (DdsEnabled(n, now) <==> DdsSelected(run, k))
            && (Fresh(n.status, now) <==> StatusHeard(run, k))
            && (n.status.value.offboard <==> InOffboard(run, k)) && (n.status.value.armed <==> IsArmed(run, k))
            && HandoffStart(n, now) == StartOf(run, k)
  {
    hide At;
    InputsAreLastMessages(cfg, run, k);
  }

  lemma NearLevel(angle: real, turns: int)
    ensures AngleError(angle, Turns(turns)) <= PI / 36.0 <==> WithinFiveDegrees(angle)
  {
    var best := AngleErrorIsMinimum(angle, Turns(turns));
    assert angle + Turns(best) - Turns(turns) == angle + Turns(best - turns);
    forall k: int
      ensures AngleError(angle, Turns(turns)) <= Abs(angle + Turns(k))
    {
      assert angle + Turns(k + turns) - Turns(turns) == angle + Turns(k);
      assert AngleError(angle, Turns(turns)) <= Abs(angle + Turns(k + turns) - Turns(turns));
    }
  }

  lemma NearGoal(p: LocalPosition)
    ensures var (dx, dy, dz) := (p.x - INITIAL_X, p.y - INITIAL_Y, p.z - INITIAL_Z);
            dx * dx + dy * dy + dz * dz <= POS_TOL * POS_TOL <==> WithinFifteenCm(p)
  {
    assert p.x - INITIAL_X == p.x && p.y - INITIAL_Y == p.y + 1.0 && p.z - INITIAL_Z == p.z + 1.0;
  }

  /** The arrival test, whatever turn the yaw goal has been unwrapped to. */
  lemma ReachedIff(position: Input<LocalPosition>, attitude: Input<Attitude>, turns: int, now: real)
    ensures InitialPoseReached(position, attitude, InitialPose().(yaw := Turns(turns)), now)
       <==> && PositionFresh(position, now) && Fresh(attitude, now) && attitude.value.finite
            && WithinFifteenCm(position.value) && WithinFiveDegrees(position.value.heading)
            && WithinFiveDegrees(attitude.value.roll) && WithinFiveDegrees(attitude.value.pitch)
  {
    hide AngleError, Turns, WithinFiveDegrees, WithinFifteenCm, Fresh, PositionFresh;
    OneMoreTurn(0);
    NearGoal(position.value);
    NearLevel(position.value.heading, turns);
    NearLevel(attitude.value.roll, 0);
    NearLevel(attitude.value.pitch, 0);
  }

  lemma TickSeesArrival(cfg: Config, run: seq<Event>, k: nat, turns: int)
    requires k < |run|
    ensures InitialPoseReached(At(cfg, run, k).position, At(cfg, run, k).attitude, InitialPose().(yaw := Turns(turns)),
                               run[k].time)
       <==> AtInitialPose(run, k)
  {
    hide At, InitialPoseReached, Turns, WithinFiveDegrees, WithinFifteenCm;
    InputsAreLastMessages(cfg, run, k);
    ReachedIff(At(cfg, run, k).position, At(cfg, run, k).attitude, turns, run[k].time);
  }

  /** The mode after one event, from the tests on the inputs. */
  lemma ModeStep(cfg: Config, n: Node, e: Event)
    ensures var n' := Step(cfg, n, e).0;
            var dds := DdsEnabled(n, e.time);
            var ready := cfg.autoArm ==> n.status.value.armed;
            var arrived := InitialPoseReached(n.position, n.attitude, HandoffGoal(n), e.time);
            && (!e.Tick? ==> n'.mode == n.mode && n'.previousDds == n.previousDds)
            && (e.Tick? ==> n'.previousDds == dds)
            && (e.Tick? ==>
                  n'.mode ==
                  if !dds then if n.previousDds && n.mode in {Handoff, PathActive} then WaitOffboard else n.mode
                  else if !Fresh(n.status, e.time) then if n.mode == PathActive then WaitOffboard else n.mode
                  else match n.mode
                       case WaitOffboard =>
                         if e.time < 0.5 || !n.status.value.offboard then WaitOffboard
                         else if ready then Handoff else WaitArm
                       case WaitArm => if ready then Handoff else WaitArm
                       case Handoff => if arrived then PathActive else Handoff
                       case PathActive =>
                         if !n.status.value.offboard then WaitOffboard else if ready then PathActive else WaitArm)
  {
    hide InitialPoseReached, HandoffFilters.Update, HandoffFilters.Reset, Unwrap;
  }

  lemma GoalTurns(n: Node) returns (turns: int)
    ensures HandoffGoal(n) == InitialPose().(yaw := Turns(turns))
  {
    turns := UnwrapWithinHalfTurn(INITIAL_YAW, n.lastTarget.yaw);
  }

  /**
   The mode of the node is the one that the messages determine, at every event of every run; in handoff and on the
   path the stored DDS flag is set.
   */
  lemma {:induction false} ModeFollowsMessages(cfg: Config, run: seq<Event>, k: nat)
    requires k <= |run|
    ensures At(cfg, run, k).mode == ModeAt(cfg, run, k)
    ensures At(cfg, run, k).mode in {Handoff, PathActive} ==> At(cfg, run, k).previousDds
  {
    hide Step, InitialPoseReached, AtInitialPose, HandoffGoal, DdsEnabled, DdsSelected, Fresh, StatusHeard, StartOf,
         HandoffStart, InOffboard, IsArmed, Turns;
    if k > 0 {
      var n := At(cfg, run, k - 1);
      ModeFollowsMessages(cfg, run, k - 1);
      TickSees(cfg, run, k - 1);
      ModeStep(cfg, n, run[k - 1]);
      var turns := GoalTurns(n);
      TickSeesArrival(cfg, run, k - 1, turns);
    }
  }

  // ---------------------------------------------------------------- path setpoints

  /** A path in progress goes back to one arrival, which started its clock, and every tick since then was safe. */
  lemma {:induction false} PathOrigin(cfg: Config, run: seq<Event>, k: nat) returns (j: nat)
    requires OnPath(cfg, run, k)
    ensures j < k && Arrives(cfg, run, j) && SafeBetween(cfg, run, j, k)
    ensures forall i: nat :: j < i <= k ==> OnPath(cfg, run, i)
    ensures At(cfg, run, k).trajectoryStart == run[j].time
    ensures var n := At(cfg, run, k);
            n.offsetX == 0.0 && n.offsetY == -1.0 && n.offsetZ == -1.0
  {
    hide Step, DdsSelected, StatusHeard, InOffboard, IsArmed, AtInitialPose;
    var n, e := At(cfg, run, k - 1), run[k - 1];
    ModeFollowsMessages(cfg, run, k - 1);
    ModeFollowsMessages(cfg, run, k);
    ClockStep(cfg, n, e);
    if OnPath(cfg, run, k - 1) {
      j := PathOrigin(cfg, run, k - 1);
    } else {
      j := k - 1;
    }
  }

  /** The trajectory clock and offset change only where a path begins. */
  lemma ClockStep(cfg: Config, n: Node, e: Event)
    ensures var n' := Step(cfg, n, e).0;
            if n.mode != PathActive && n'.mode == PathActive
            then n'.trajectoryStart == e.time && n'.offsetX == 0.0 && n'.offsetY == -1.0 && n'.offsetZ == -1.0
            else n'.trajectoryStart == n.trajectoryStart && n'.offsetX == n.offsetX && n'.offsetY == n.offsetY
                 && n'.offsetZ == n.offsetZ
  {
    hide InitialPoseReached, HandoffFilters.Update, HandoffFilters.Reset, Unwrap;
  }

  /** One event publishes a path setpoint exactly if it is a tick on the path with everything in order. */
  lemma PathSetpointStep(cfg: Config, n: Node, e: Event)
    ensures var out := Step(cfg, n, e).1;
            if e.Tick? && n.mode == PathActive && DdsEnabled(n, e.time) && Fresh(n.status, e.time) && Ready(cfg, n)
            then
              && |out| == 2 && out[0] == OffboardControlMode
              && var p := (cfg.path)(e.time - n.trajectoryStart);
                 out[1] == PathSetpoint(Shifted(p, n.offsetX, n.offsetY, n.offsetZ), cfg.feedVelocity)
            else forall o :: o in out ==> !o.PathSetpoint?
  {
    hide InitialPoseReached, HandoffFilters.Update, HandoffFilters.Reset, Unwrap;
  }

  /** A path setpoint is published at exactly the safe ticks on the path. */
  lemma PathSetpointIff(cfg: Config, run: seq<Event>, k: nat)
    requires k < |run|
    ensures (exists o: Output :: o.PathSetpoint? && Publishes(cfg, run, k, o))
       <==> OnPath(cfg, run, k) && SafeTick(cfg, run, k)
  {
    hide Step, DdsEnabled, Fresh, DdsSelected, StatusHeard, InOffboard, IsArmed, StartOf, HandoffStart;
    ModeFollowsMessages(cfg, run, k);
    TickSees(cfg, run, k);
    PathSetpointStep(cfg, At(cfg, run, k), run[k]);
    if OnPath(cfg, run, k) && SafeTick(cfg, run, k) {
      assert Publishes(cfg, run, k, Published(cfg, run, k)[1]);
    }
  }

  /**
   Each tick that publishes a path setpoint has an earlier tick at which the initial pose was reached;
   all ticks since then, this one included, were safe; the setpoint is the path at the time since
   that tick, shifted to the initial pose.
   */
  lemma PathSetpointsAreSafe(cfg: Config, run: seq<Event>, k: nat, o: Output) returns (j: nat)
    requires o.PathSetpoint? && Publishes(cfg, run, k, o)
    ensures j < k && Arrives(cfg, run, j)
    ensures SafeTick(cfg, run, k) && SafeBetween(cfg, run, j, k)
    ensures forall i: nat :: j < i <= k ==> OnPath(cfg, run, i)
    ensures o == PathSetpoint(PathPoint(cfg, run[k].time - run[j].time), cfg.feedVelocity)
  {
    hide Step, DdsSelected, StatusHeard, InOffboard, IsArmed, Arrives;
    PathSetpointIff(cfg, run, k);
    j := PathOrigin(cfg, run, k);
    PathSetpointStep(cfg, At(cfg, run, k), run[k]);
  }

  // ---------------------------------------------------------------- the handoff

  /** Number of handoff setpoints published by events j + 1 .. k. */
  ghost function Setpoints(cfg: Config, run: seq<Event>, j: nat, k: nat): nat
    requires k <= |run|
  {
    if k <= j + 1 then 0
    else
      Setpoints(cfg, run, j, k - 1)
      + if exists o :: o in Published(cfg, run, k - 1) && o.HandoffSetpoint? then 1 else 0
  }

  /** The goal of the handoff entered at event j: the initial pose, with the yaw turned towards the start. */
  ghost function GoalOf(run: seq<Event>, j: nat): TargetCmd {
    TargetCmd(0.0, -1.0, -1.0, 0.0, 0.0, 0.0, 0.0, Unwrap(0.0, StartOf(run, j).yaw))
  }

  /** All six filters started at `start` and have made n updates towards `goal`. */
  ghost predicate FiltersAfter(f: HandoffFilters, ratio: real, start: TargetCmd, goal: TargetCmd, n: nat) {
    && f.x == Repeat(Lpf(start.x, 1.0 - ratio, true), goal.x, n)
    && f.y == Repeat(Lpf(start.y, 1.0 - ratio, true), goal.y, n)
    && f.z == Repeat(Lpf(start.z, 1.0 - ratio, true), goal.z, n)
    && f.roll == Repeat(Lpf(start.roll, 1.0 - ratio, true), goal.roll, n)
    && f.pitch == Repeat(Lpf(start.pitch, 1.0 - ratio, true), goal.pitch, n)
    && f.yaw == Repeat(Lpf(start.yaw, 1.0 - ratio, true), goal.yaw, n)
  }

  /** The filters keep the decay they were built with. */
  lemma {:induction false} AlphaKept(cfg: Config, run: seq<Event>, k: nat)
    requires k <= |run|
    ensures var f := At(cfg, run, k).filters;
            f.x.alpha == f.y.alpha == f.z.alpha == f.roll.alpha == f.pitch.alpha == f.yaw.alpha == 1.0 - cfg.ratio
  {
    if k > 0 {
      AlphaKept(cfg, run, k - 1);
      AlphaStep(cfg, At(cfg, run, k - 1), run[k - 1]);
    }
  }

  ghost predicate SameAlphas(f: HandoffFilters, f': HandoffFilters) {
    && f'.x.alpha == f.x.alpha && f'.y.alpha == f.y.alpha && f'.z.alpha == f.z.alpha
    && f'.roll.alpha == f.roll.alpha && f'.pitch.alpha == f.pitch.alpha && f'.yaw.alpha == f.yaw.alpha
  }

  lemma AlphasKept(f: HandoffFilters)
    ensures SameAlphas(f, f) && forall c :: SameAlphas(f, f.Reset(c)) && SameAlphas(f, f.Update(c))
  {
  }

  lemma AlphaStep(cfg: Config, n: Node, e: Event)
    ensures SameAlphas(n.filters, Step(cfg, n, e).0.filters)
  {
    hide InitialPoseReached, Unwrap, HandoffFilters.Reset, HandoffFilters.Update, SameAlphas;
    AlphasKept(n.filters);
  }

  lemma TowardShrinks(error: real, goal: real, p: real)
    requires 0.0 < p <= 1.0
    ensures Abs(goal - Toward(error, goal, p)) <= Abs(error)
    ensures p < 1.0 && error != 0.0 ==> Abs(goal - Toward(error, goal, p)) < Abs(error)
  {
    var m := p * error;
    MulShrinks(p, error, m);
    if error != 0.0 && p < 1.0 {
      StrictMul(p, error, m);
    }
    PartShrinks(m, error, goal);
  }

  lemma StrictMul(p: real, e: real, m: real)
    requires p < 1.0 && e != 0.0 && m == p * e
    ensures m != e
  {
    var q := 1.0 - p;
    assert q * e == e - m;
  }

  lemma PartShrinks(m: real, e: real, goal: real)
    requires PartOf(m, e)
    ensures Abs(goal - (goal + m)) <= Abs(e) && (m != e ==> Abs(goal - (goal + m)) < Abs(e))
  {
  }

  lemma DecayFacts(ratio: real, start: real, goal: real, n: nat)
    requires 0.0 < ratio < 1.0
    ensures var y := Repeat(Lpf(start, 1.0 - ratio, true), goal, n).y;
            Abs(goal - y) <= Abs(start - goal) && (n > 0 && start != goal ==> Abs(goal - y) < Abs(start - goal))
  {
    GeometricLaw(Lpf(start, 1.0 - ratio, true), goal, n);
    PowRange(ratio, n);
    assert 1.0 - (1.0 - ratio) == ratio;
    TowardShrinks(start - goal, goal, Pow(ratio, n));
  }

  /** Unwrapping towards where the filter is gives the same turn at every update. */
  lemma SameTurn(ratio: real, start: real, n: nat)
    requires 0.0 < ratio < 1.0
    ensures var goal := Unwrap(INITIAL_YAW, start);
            var y := Repeat(Lpf(start, 1.0 - ratio, true), goal, n).y;
            Unwrap(INITIAL_YAW, y) == goal && Unwrap(goal, y) == goal
  {
    var goal := Unwrap(INITIAL_YAW, start);
    var y := Repeat(Lpf(start, 1.0 - ratio, true), goal, n).y;
    var k := UnwrapWithinHalfTurn(INITIAL_YAW, start);
    DecayFacts(ratio, start, goal, n);
    if n > 0 && start != goal {
      UnwrapIsTheNearShift(INITIAL_YAW, y, k);
    }
  }

  lemma HandoffSetpointStep(cfg: Config, n: Node, e: Event)
    requires n.mode == Handoff
    ensures (exists o :: o in Step(cfg, n, e).1 && o.HandoffSetpoint?)
       <==> e.Tick? && DdsEnabled(n, e.time) && Fresh(n.status, e.time)
    ensures var goal := HandoffGoal(n);
            var f := n.filters.Update(goal.(yaw := Unwrap(goal.yaw, n.filters.yaw.y)));
            var (n', out) := Step(cfg, n, e);
            if e.Tick? && DdsEnabled(n, e.time) && Fresh(n.status, e.time)
            then n'.filters == f && out == [OffboardControlMode, HandoffSetpoint(f.Command())]
            else n'.filters == n.filters
    ensures var n' := Step(cfg, n, e).0;
            n'.mode == Handoff && n.lastTarget == n.filters.Command() ==> n'.lastTarget == n'.filters.Command()
  {
    if e.Tick? && DdsEnabled(n, e.time) && Fresh(n.status, e.time) {
      assert Step(cfg, n, e).1[1].HandoffSetpoint?;
    }
  }

  lemma FiltersStep(f: HandoffFilters, ratio: real, start: TargetCmd, goal: TargetCmd, n: nat)
    requires FiltersAfter(f, ratio, start, goal, n)
    ensures FiltersAfter(f.Update(goal), ratio, start, goal, n + 1)
  {
  }

  /** A handoff in progress goes back to one entry, and its filters have followed one fixed goal ever since. */
  lemma {:induction false} HandoffOrigin(cfg: Config, run: seq<Event>, k: nat) returns (j: nat)
    requires 0.0 < cfg.ratio < 1.0
    requires InHandoff(cfg, run, k)
    ensures j < k && Enters(cfg, run, j)
    ensures forall i: nat :: j < i <= k ==> InHandoff(cfg, run, i)
    ensures FiltersAfter(At(cfg, run, k).filters, cfg.ratio, StartOf(run, j), GoalOf(run, j), Setpoints(cfg, run, j, k))
    ensures At(cfg, run, k).lastTarget == At(cfg, run, k).filters.Command()
  {
    hide Step, Unwrap, HandoffFilters.Update, NextMode, StartOf;
    var n, e := At(cfg, run, k - 1), run[k - 1];
    ModeFollowsMessages(cfg, run, k - 1);
    ModeFollowsMessages(cfg, run, k);
    if InHandoff(cfg, run, k - 1) {
      j := HandoffOrigin(cfg, run, k - 1);
      var goal, updates := GoalOf(run, j), Setpoints(cfg, run, j, k - 1);
      SameTurn(cfg.ratio, StartOf(run, j).yaw, updates);
      HandoffSetpointStep(cfg, n, e);
      FiltersStep(n.filters, cfg.ratio, StartOf(run, j), goal, updates);
    } else {
      j := k - 1;
      AlphaKept(cfg, run, k - 1);
      EntryStep(cfg, n, e);
      TickSees(cfg, run, k - 1);
    }
  }

  lemma EntryStep(cfg: Config, n: Node, e: Event)
    requires n.mode != Handoff && Step(cfg, n, e).0.mode == Handoff
    ensures e.Tick?
    ensures var n' := Step(cfg, n, e).0;
            n'.lastTarget == HandoffStart(n, e.time) && n'.filters == n.filters.Reset(HandoffStart(n, e.time))
            && n'.lastTarget == n'.filters.Command()
  {
  }

  /** One axis of the handoff: a fixed fraction of the error is left, and the goal is not overshot. */
  ghost predicate AxisLaw(command: real, start: real, goal: real, ratio: real, n: nat) {
    command == Toward(start - goal, goal, Pow(ratio, n)) && Between(start, command, goal)
  }

  lemma AxisFollowsLaw(ratio: real, start: real, goal: real, n: nat)
    requires 0.0 < ratio < 1.0
    ensures AxisLaw(Repeat(Lpf(start, 1.0 - ratio, true), goal, n).y, start, goal, ratio, n)
  {
    GeometricLaw(Lpf(start, 1.0 - ratio, true), goal, n);
    assert 1.0 - (1.0 - ratio) == ratio;
    PowRange(ratio, n);
    ScaledErrorBetween(start - goal, goal, Pow(ratio, n));
  }

  ghost predicate SetpointLaw(command: TargetCmd, start: TargetCmd, goal: TargetCmd, ratio: real, n: nat) {
    && AxisLaw(command.x, start.x, goal.x, ratio, n)
    && AxisLaw(command.y, start.y, goal.y, ratio, n)
    && AxisLaw(command.z, start.z, goal.z, ratio, n)
    && AxisLaw(command.roll, start.roll, goal.roll, ratio, n)
    && AxisLaw(command.pitch, start.pitch, goal.pitch, ratio, n)
    && AxisLaw(command.yaw, start.yaw, goal.yaw, ratio, n)
  }

  lemma FiltersFollowLaw(f: HandoffFilters, ratio: real, start: TargetCmd, goal: TargetCmd, n: nat)
    requires 0.0 < ratio < 1.0
    requires FiltersAfter(f, ratio, start, goal, n)
    ensures SetpointLaw(f.Command(), start, goal, ratio, n)
  {
    hide AxisLaw, Repeat;
    AxisFollowsLaw(ratio, start.x, goal.x, n);
    AxisFollowsLaw(ratio, start.y, goal.y, n);
    AxisFollowsLaw(ratio, start.z, goal.z, n);
    AxisFollowsLaw(ratio, start.roll, goal.roll, n);
    AxisFollowsLaw(ratio, start.pitch, goal.pitch, n);
    AxisFollowsLaw(ratio, start.yaw, goal.yaw, n);
  }

  lemma HandoffSetpointMode(cfg: Config, n: Node, e: Event, o: Output)
    requires o.HandoffSetpoint? && o in Step(cfg, n, e).1
    ensures n.mode == Handoff && e.Tick? && DdsEnabled(n, e.time) && Fresh(n.status, e.time)
  {
  }

  /** A handoff setpoint is published at exactly the handoff ticks with DDS selected and status heard. */
  lemma HandoffSetpointIff(cfg: Config, run: seq<Event>, k: nat)
    requires k < |run|
    ensures (exists o: Output :: o.HandoffSetpoint? && Publishes(cfg, run, k, o))
       <==> InHandoff(cfg, run, k) && run[k].Tick? && DdsSelected(run, k) && StatusHeard(run, k)
  {
    hide Step, DdsEnabled, Fresh, DdsSelected, StatusHeard, InOffboard, IsArmed, StartOf, HandoffStart,
         HandoffFilters.Update, Unwrap;
    var n := At(cfg, run, k);
    ModeFollowsMessages(cfg, run, k);
    TickSees(cfg, run, k);
    if n.mode == Handoff {
      HandoffSetpointStep(cfg, n, run[k]);
    }
    forall o: Output | o.HandoffSetpoint? && Publishes(cfg, run, k, o)
      ensures n.mode == Handoff
    {
      HandoffSetpointMode(cfg, n, run[k], o);
    }
  }

  /**
   The setpoint that a tick publishes is the value of filters that took one more step towards the goal of the
   handoff.
   */
  lemma FiltersAtSetpoint(cfg: Config, run: seq<Event>, k: nat, o: Output) returns (j: nat)
    requires 0.0 < cfg.ratio < 1.0
    requires o.HandoffSetpoint? && Publishes(cfg, run, k, o)
    ensures j < k && Enters(cfg, run, j) && forall i: nat :: j < i <= k ==> InHandoff(cfg, run, i)
    ensures var f := Step(cfg, At(cfg, run, k), run[k]).0.filters;
            && o.target == f.Command()
            && FiltersAfter(f, cfg.ratio, StartOf(run, j), GoalOf(run, j), Setpoints(cfg, run, j, k) + 1)
  {
    hide Step, Unwrap, HandoffFilters.Update, ModeAt, StartOf;
    var node := At(cfg, run, k);
    HandoffSetpointMode(cfg, node, run[k], o);
    HandoffSetpointStep(cfg, node, run[k]);
    ModeFollowsMessages(cfg, run, k);
    j := HandoffOrigin(cfg, run, k);
    var start, goal, updates := StartOf(run, j), GoalOf(run, j), Setpoints(cfg, run, j, k);
    SameTurn(cfg.ratio, start.yaw, updates);
    FiltersStep(node.filters, cfg.ratio, start, goal, updates);
  }

  /** Right after its entry a handoff commands where it starts: the vehicle's pose, if that is known. */
  lemma HandoffStartsAtVehicle(cfg: Config, run: seq<Event>, j: nat)
    requires Enters(cfg, run, j)
    ensures var n := At(cfg, run, j + 1);
            && n.lastTarget == n.filters.Command() == StartOf(run, j)
            && n.filters.x.initialized && n.filters.y.initialized && n.filters.z.initialized
            && n.filters.roll.initialized && n.filters.pitch.initialized && n.filters.yaw.initialized
  {
    hide Step, StartOf, ModeAt;
    ModeFollowsMessages(cfg, run, j);
    ModeFollowsMessages(cfg, run, j + 1);
    EntryStep(cfg, At(cfg, run, j), run[j]);
    TickSees(cfg, run, j);
  }

  /** Eight seconds of handoff at 400 Hz. */
  const HANDOFF_SAMPLES: nat := 3200

  lemma HandoffSamples()
    ensures HANDOFF_RUNTIME * RATE_HZ as real == HANDOFF_SAMPLES as real
  {
  }

  ghost predicate OnePercentOf(command: real, start: real, goal: real) {
    command - goal == 0.01 * (start - goal)
  }

  /** On every axis one per cent of the first error is left. */
  ghost predicate OnePercentLeft(command: TargetCmd, start: TargetCmd, goal: TargetCmd) {
    && OnePercentOf(command.x, start.x, goal.x)
    && OnePercentOf(command.y, start.y, goal.y)
    && OnePercentOf(command.z, start.z, goal.z)
    && OnePercentOf(command.roll, start.roll, goal.roll)
    && OnePercentOf(command.pitch, start.pitch, goal.pitch)
    && OnePercentOf(command.yaw, start.yaw, goal.yaw)
  }

  lemma LawAtLastSample(command: TargetCmd, start: TargetCmd, goal: TargetCmd, ratio: real)
    requires IsDecay(ratio, HANDOFF_SAMPLES) && SetpointLaw(command, start, goal, ratio, HANDOFF_SAMPLES)
    ensures OnePercentLeft(command, start, goal)
  {
    hide HANDOFF_SAMPLES;
  }

  /**
   The n-th setpoint of a handoff lies, on every axis, where n updates of the filter put it: the error
   is the first error times the n-th power of the decay, one per cent of it at the end of the handoff runtime.
   The yaw goal is one turn of the initial yaw, within half a turn of the start, fixed for the whole handoff.
   */
  lemma HandoffSetpointLaw(cfg: Config, run: seq<Event>, k: nat, o: Output) returns (j: nat, n: nat, turns: int)
    requires 0.0 < cfg.ratio < 1.0
    requires o.HandoffSetpoint? && Publishes(cfg, run, k, o)
    ensures j < k && Enters(cfg, run, j) && forall i: nat :: j < i <= k ==> InHandoff(cfg, run, i)
    ensures n == Setpoints(cfg, run, j, k) + 1
    ensures SetpointLaw(o.target, StartOf(run, j), GoalOf(run, j), cfg.ratio, n)
    ensures IsDecay(cfg.ratio, HANDOFF_SAMPLES) && n == HANDOFF_SAMPLES ==>
              OnePercentLeft(o.target, StartOf(run, j), GoalOf(run, j))
    ensures GoalOf(run, j) == TargetCmd(0.0, -1.0, -1.0, 0.0, 0.0, 0.0, 0.0, Turns(turns))
    ensures Abs(GoalOf(run, j).yaw - StartOf(run, j).yaw) <= PI
  {
    hide Step, HandoffFilters.Update, Unwrap, AxisLaw, OnePercentOf, FiltersAfter, HANDOFF_SAMPLES;
    j := FiltersAtSetpoint(cfg, run, k, o);
    var start, goal := StartOf(run, j), GoalOf(run, j);
    n := Setpoints(cfg, run, j, k) + 1;
    FiltersFollowLaw(Step(cfg, At(cfg, run, k), run[k]).0.filters, cfg.ratio, start, goal, n);
    if IsDecay(cfg.ratio, HANDOFF_SAMPLES) && n == HANDOFF_SAMPLES {
      LawAtLastSample(o.target, start, goal, cfg.ratio);
    }
    turns := UnwrapWithinHalfTurn(0.0, start.yaw);
  }

  // ---------------------------------------------------------------- commands

  /** What one event publishes besides setpoints, and what it makes of the two request clocks. */
  lemma CommandStep(cfg: Config, n: Node, e: Event)
    ensures var (n', out) := Step(cfg, n, e);
            var seen := e.Tick? && DdsEnabled(n, e.time) && Fresh(n.status, e.time);
            && (OffboardControlMode in out <==> e.Tick? && DdsEnabled(n, e.time))
            && (SetPosctl in out <==>
                  e.Tick? && !DdsEnabled(n, e.time) && n.previousDds && n.mode in {Handoff, PathActive})
            && (SetOffboard in out <==>
                  && seen && n.mode in {WaitOffboard, PathActive} && !n.status.value.offboard
                  && cfg.autoOffboard && 0.5 <= e.time && Elapsed(n.offboardRequest, e.time, 1.0))
            && (ArmVehicle in out <==>
                  && seen && cfg.autoArm && !n.status.value.armed && Elapsed(n.armRequest, e.time, 2.0)
                  && (n.mode == WaitArm || (n.mode == PathActive && n.status.value.offboard)
                      || (n.mode == WaitOffboard && 0.5 <= e.time && n.status.value.offboard)))
            && n'.offboardRequest == (if SetOffboard in out then Some(e.time) else n.offboardRequest)
            && n'.armRequest == (if ArmVehicle in out then Some(e.time) else n.armRequest)
  {
    hide InitialPoseReached, HandoffFilters.Update, HandoffFilters.Reset, Unwrap;
    var out := Step(cfg, n, e).1;
    if |out| > 0 { assert out[0] in out; }
    if |out| > 1 { assert out[1] in out; }
    assert |out| <= 2;
  }

  /** The offboard heartbeat goes out at exactly the ticks that find DDS selected. */
  lemma HeartbeatIff(cfg: Config, run: seq<Event>, k: nat)
    requires k < |run|
    ensures Publishes(cfg, run, k, OffboardControlMode) <==> run[k].Tick? && DdsSelected(run, k)
  {
    hide Step, DdsSelected, StatusHeard, InOffboard, IsArmed, StartOf, HandoffStart;
    TickSees(cfg, run, k);
    CommandStep(cfg, At(cfg, run, k), run[k]);
  }

  /**
   POSCTL is commanded at exactly the ticks in handoff or on the path that do not find DDS selected: the last source
   message was another, or came more than a second ago.
   */
  lemma PosctlIff(cfg: Config, run: seq<Event>, k: nat)
    requires k < |run|
    ensures Publishes(cfg, run, k, SetPosctl)
       <==> run[k].Tick? && (InHandoff(cfg, run, k) || OnPath(cfg, run, k)) && !DdsSelected(run, k)
    ensures Publishes(cfg, run, k, SetPosctl) ==> ModeAt(cfg, run, k + 1) == WaitOffboard
  {
    hide Step, DdsSelected, StatusHeard, InOffboard, IsArmed, StartOf, HandoffStart;
    TickSees(cfg, run, k);
    ModeFollowsMessages(cfg, run, k);
    CommandStep(cfg, At(cfg, run, k), run[k]);
  }

  /** Beside the heartbeat a tick publishes at most one command or setpoint, and no other event publishes anything. */
  lemma AtMostOneCommand(cfg: Config, run: seq<Event>, k: nat)
    requires k < |run|
    ensures var out := Published(cfg, run, k);
            if !run[k].Tick? then out == []
            else if !DdsSelected(run, k) then out == [] || out == [SetPosctl]
            else 1 <= |out| <= 2 && out[0] == OffboardControlMode
                 && (|out| == 2 ==> out[1] !in {OffboardControlMode, SetPosctl})
  {
    TickSees(cfg, run, k);
    hide InitialPoseReached, HandoffFilters.Update, HandoffFilters.Reset, Unwrap, DdsSelected, StatusHeard, InOffboard,
         IsArmed, StartOf;
  }

  /** A tick that saw DDS selected and a vehicle that has just reported itself in OFFBOARD. */
  ghost predicate SawOffboard(run: seq<Event>, m: nat) {
    m < |run| && run[m].Tick? && DdsSelected(run, m) && StatusHeard(run, m) && InOffboard(run, m)
  }

  /** Outside wait_offboard, the node has confirmed OFFBOARD since any tick that left it there. */
  lemma {:induction false} OffboardConfirmed(cfg: Config, run: seq<Event>, i: nat, k: nat) returns (m: nat)
    requires i <= k <= |run|
    requires ModeAt(cfg, run, i) == WaitOffboard && ModeAt(cfg, run, k) != WaitOffboard
    ensures i <= m < k && SawOffboard(run, m)
  {
    if ModeAt(cfg, run, k - 1) == WaitOffboard {
      m := k - 1;
    } else {
      m := OffboardConfirmed(cfg, run, i, k - 1);
    }
  }

  /** Between a POSCTL command and the next setpoint some tick saw the vehicle back in OFFBOARD. */
  lemma SetpointAfterPosctl(cfg: Config, run: seq<Event>, i: nat, k: nat, o: Output) returns (m: nat)
    requires i < k && Publishes(cfg, run, i, SetPosctl)
    requires IsSetpoint(o) && Publishes(cfg, run, k, o)
    ensures i < m < k && SawOffboard(run, m)
  {
    hide Step, At, Published, DdsSelected, StatusHeard, InOffboard, IsArmed;
    PosctlIff(cfg, run, i);
    PathSetpointIff(cfg, run, k);
    HandoffSetpointIff(cfg, run, k);
    m := OffboardConfirmed(cfg, run, i + 1, k);
  }

  // ---------------------------------------------------------------- requests

  /** The node leaves wait_offboard only after the command delay. */
  lemma {:induction false} DelayPassed(cfg: Config, run: seq<Event>, k: nat)
    requires k <= |run| && Timed(run)
    requires ModeAt(cfg, run, k) != WaitOffboard
    ensures k > 0 && 0.5 <= run[k - 1].time
  {
    hide DdsSelected, StatusHeard, InOffboard, IsArmed, AtInitialPose;
    if ModeAt(cfg, run, k - 1) != WaitOffboard {
      DelayPassed(cfg, run, k - 1);
    }
  }

  /** A request made by event i is the last recorded one, or an even later one is. */
  lemma {:induction false} RequestRecorded(cfg: Config, run: seq<Event>, i: nat, k: nat)
    requires i < k <= |run| && Timed(run)
    ensures Publishes(cfg, run, i, SetOffboard) ==>
              At(cfg, run, k).offboardRequest.Some? && run[i].time <= At(cfg, run, k).offboardRequest.value
    ensures Publishes(cfg, run, i, ArmVehicle) ==>
              At(cfg, run, k).armRequest.Some? && run[i].time <= At(cfg, run, k).armRequest.value
  {
    hide Step;
    CommandStep(cfg, At(cfg, run, k - 1), run[k - 1]);
    if i < k - 1 {
      RequestRecorded(cfg, run, i, k - 1);
    }
  }

  /** A recorded offboard request was made. */
  lemma {:induction false} OffboardRequestMade(cfg: Config, run: seq<Event>, k: nat) returns (i: nat)
    requires k <= |run| && At(cfg, run, k).offboardRequest.Some?
    ensures i < k && Publishes(cfg, run, i, SetOffboard) && At(cfg, run, k).offboardRequest.value == run[i].time
  {
    hide Step;
    CommandStep(cfg, At(cfg, run, k - 1), run[k - 1]);
    if Publishes(cfg, run, k - 1, SetOffboard) {
      i := k - 1;
    } else {
      i := OffboardRequestMade(cfg, run, k - 1);
    }
  }

  /** A recorded arm request was made. */
  lemma {:induction false} ArmRequestMade(cfg: Config, run: seq<Event>, k: nat) returns (i: nat)
    requires k <= |run| && At(cfg, run, k).armRequest.Some?
    ensures i < k && Publishes(cfg, run, i, ArmVehicle) && At(cfg, run, k).armRequest.value == run[i].time
  {
    hide Step;
    CommandStep(cfg, At(cfg, run, k - 1), run[k - 1]);
    if Publishes(cfg, run, k - 1, ArmVehicle) {
      i := k - 1;
    } else {
      i := ArmRequestMade(cfg, run, k - 1);
    }
  }

  /** No event before k published the command within `period` seconds of it. */
  ghost predicate Rested(cfg: Config, run: seq<Event>, k: nat, command: Output, period: real)
    requires k < |run|
  {
    forall i: nat :: i < k && Publishes(cfg, run, i, command) ==> run[k].time - run[i].time >= period
  }

  lemma RestedIff(cfg: Config, run: seq<Event>, k: nat)
    requires k < |run| && Timed(run)
    ensures Rested(cfg, run, k, SetOffboard, 1.0) <==> Elapsed(At(cfg, run, k).offboardRequest, run[k].time, 1.0)
    ensures Rested(cfg, run, k, ArmVehicle, 2.0) <==> Elapsed(At(cfg, run, k).armRequest, run[k].time, 2.0)
  {
    hide Step, At, Published;
    var n := At(cfg, run, k);
    if n.offboardRequest.Some? { var i := OffboardRequestMade(cfg, run, k); }
    if n.armRequest.Some? { var i := ArmRequestMade(cfg, run, k); }
    forall i: nat | i < k
      ensures Publishes(cfg, run, i, SetOffboard) ==>
                n.offboardRequest.Some? && run[i].time <= n.offboardRequest.value
      ensures Publishes(cfg, run, i, ArmVehicle) ==> n.armRequest.Some? && run[i].time <= n.armRequest.value
    {
      RequestRecorded(cfg, run, i, k);
    }
  }

  /**
   OFFBOARD is requested at exactly the ticks, half a second into the run or later, that hear with DDS selected of a
   vehicle that is not in OFFBOARD, while the node waits for it or loses it on the path, a second after any other.
   */
  lemma OffboardRequestIff(cfg: Config, run: seq<Event>, k: nat)
    requires k < |run| && Timed(run)
    ensures Publishes(cfg, run, k, SetOffboard) <==>
            && run[k].Tick? && DdsSelected(run, k) && StatusHeard(run, k) && !InOffboard(run, k)
            && ModeAt(cfg, run, k) in {WaitOffboard, PathActive} && cfg.autoOffboard
            && 0.5 <= run[k].time && Rested(cfg, run, k, SetOffboard, 1.0)
  {
    hide Step, DdsSelected, StatusHeard, InOffboard, IsArmed, StartOf, HandoffStart, Elapsed, Rested;
    RestedIff(cfg, run, k);
    TickSees(cfg, run, k);
    ModeFollowsMessages(cfg, run, k);
    CommandStep(cfg, At(cfg, run, k), run[k]);
  }

  /** Arming is requested at exactly the ticks that hear of a disarmed vehicle, two seconds after any other. */
  lemma ArmRequestIff(cfg: Config, run: seq<Event>, k: nat)
    requires k < |run| && Timed(run)
    ensures Publishes(cfg, run, k, ArmVehicle) <==>
            && run[k].Tick? && DdsSelected(run, k) && StatusHeard(run, k) && !IsArmed(run, k) && cfg.autoArm
            && (ModeAt(cfg, run, k) == WaitArm || (ModeAt(cfg, run, k) == PathActive && InOffboard(run, k))
                || (ModeAt(cfg, run, k) == WaitOffboard && 0.5 <= run[k].time && InOffboard(run, k)))
            && Rested(cfg, run, k, ArmVehicle, 2.0)
  {
    hide Step, DdsSelected, StatusHeard, InOffboard, IsArmed, StartOf, HandoffStart, Elapsed, Rested;
    RestedIff(cfg, run, k);
    TickSees(cfg, run, k);
    ModeFollowsMessages(cfg, run, k);
    CommandStep(cfg, At(cfg, run, k), run[k]);
  }

  /** Offboard requests are at least one second apart, arm requests two. */
  lemma RequestRates(cfg: Config, run: seq<Event>, i: nat, k: nat)
    requires i < k < |run| && Timed(run)
    ensures Publishes(cfg, run, i, SetOffboard) && Publishes(cfg, run, k, SetOffboard) ==>
              run[k].time - run[i].time >= 1.0
    ensures Publishes(cfg, run, i, ArmVehicle) && Publishes(cfg, run, k, ArmVehicle) ==>
              run[k].time - run[i].time >= 2.0
  {
    hide Step, Published, DdsSelected, StatusHeard, InOffboard, IsArmed;
    OffboardRequestIff(cfg, run, k);
    ArmRequestIff(cfg, run, k);
  }

  /** Neither request comes in the first half second. */
  lemma NoEarlyRequests(cfg: Config, run: seq<Event>, k: nat)
    requires Timed(run)
    requires Publishes(cfg, run, k, SetOffboard) || Publishes(cfg, run, k, ArmVehicle)
    ensures 0.5 <= run[k].time
  {
    hide Step, DdsSelected, StatusHeard, InOffboard, IsArmed, Rested;
    OffboardRequestIff(cfg, run, k);
    ArmRequestIff(cfg, run, k);
    if ModeAt(cfg, run, k) != WaitOffboard {
      DelayPassed(cfg, run, k);
    }
  }

  // ---------------------------------------------------------------- the path as flown

  /** Two setpoints of one path have the same origin. */
  lemma SameOrigin(cfg: Config, run: seq<Event>, i: nat, k: nat, j: nat, j': nat)
    requires i <= k <= |run| && j < i && j' < k
    requires forall m: nat :: i <= m <= k ==> OnPath(cfg, run, m)
    requires Arrives(cfg, run, j) && forall m: nat :: j < m <= i ==> OnPath(cfg, run, m)
    requires Arrives(cfg, run, j') && forall m: nat :: j' < m <= k ==> OnPath(cfg, run, m)
    ensures j == j'
  {
    assert j < j' ==> OnPath(cfg, run, j');
    assert j' < j ==> OnPath(cfg, run, j);
  }

  /** Two path setpoints of one path phase are two points of the path on one clock, shifted alike. */
  lemma SamePhase(cfg: Config, run: seq<Event>, i: nat, o: Output, k: nat, o': Output) returns (t: real, t': real)
    requires Timed(run) && i <= k
    requires o.PathSetpoint? && Publishes(cfg, run, i, o) && o'.PathSetpoint? && Publishes(cfg, run, k, o')
    requires forall m: nat :: i <= m <= k ==> OnPath(cfg, run, m)
    ensures 0.0 <= t && 0.0 <= t' - t == run[k].time - run[i].time
    ensures o == PathSetpoint(PathPoint(cfg, t), cfg.feedVelocity)
    ensures o' == PathSetpoint(PathPoint(cfg, t'), cfg.feedVelocity)
  {
    hide Step, At, Arrives, PathPoint, SafeTick, Published, ModeAt;
    var j := PathSetpointsAreSafe(cfg, run, i, o);
    var j' := PathSetpointsAreSafe(cfg, run, k, o');
    SameOrigin(cfg, run, i, k, j, j');
    t, t' := run[i].time - run[j].time, run[k].time - run[j].time;
  }

  /** Position `p'` is reached from `p` at velocity `v` within a quadratic remainder. */
  ghost predicate Tracks(p': real, p: real, v: real, h: real, bound: real) {
    Remainder(p', p, v, h) <= bound * (h * h)
  }

  lemma TracksShifted(p': real, p: real, v: real, h: real, bound: real, c: real)
    requires Tracks(p', p, v, h, bound)
    ensures Tracks(c + p', c + p, v, h, bound)
  {
  }

  /** The bound on the second derivative that goes with a moving path. */
  function VelocityBound(name: string): real {
    if name == "pos" then 0.75 else 3.0
  }

  lemma MovingPathTracks(name: string, sin: real -> real, cos: real -> real, t: real, h: real)
    requires name in {"pos", "demo_straight"} && 0.0 <= t && 0.0 <= h
    ensures var p, p' := PathNamed(name, sin, cos)(t), PathNamed(name, sin, cos)(t + h);
            Tracks(p'.x, p.x, p.vx, h, VelocityBound(name)) && Tracks(p'.y, p.y, p.vy, h, VelocityBound(name))
  {
    hide PosPath, DemoStraight, Remainder;
    if name == "pos" { PosPathVelocity(t, h); } else { DemoStraightVelocity(t, h); }
  }

  /**
   On the two moving paths every setpoint carries a velocity, and it is the derivative of the published
   position, whatever the tick times; on no other path does a setpoint carry one.
   */
  lemma PublishedVelocity(cfg: Config, name: string, sin: real -> real, cos: real -> real,
                          run: seq<Event>, i: nat, o: Output, k: nat, o': Output)
    requires Follows(cfg, name, sin, cos) && Timed(run) && i <= k
    requires o.PathSetpoint? && Publishes(cfg, run, i, o) && o'.PathSetpoint? && Publishes(cfg, run, k, o')
    requires forall m: nat :: i <= m <= k ==> OnPath(cfg, run, m)
    ensures o.feedVelocity <==> name in {"pos", "demo_straight"}
    ensures var h := run[k].time - run[i].time;
            o.feedVelocity ==>
              && Tracks(o'.target.x, o.target.x, o.target.vx, h, VelocityBound(name))
              && Tracks(o'.target.y, o.target.y, o.target.vy, h, VelocityBound(name))
  {
    hide OnPath, Timed, Tracks, VelocityBound, Step, At, PathNamed, Published;
    var t, t' := SamePhase(cfg, run, i, o, k, o');
    if o.feedVelocity {
      var h := run[k].time - run[i].time;
      MovingPathTracks(name, sin, cos, t, h);
      assert t + h == t';
      var p, p' := (cfg.path)(t), (cfg.path)(t');
      TracksShifted(p'.y, p.y, p.vy, h, VelocityBound(name), -1.0);
    }
  }

  /**
   On the stepped attitude path the published pitch stays within 0 and 60 degrees and moves at most 2.5 degrees per
   second.
   */
  lemma PublishedPitch(cfg: Config, sin: real -> real, cos: real -> real,
                       run: seq<Event>, i: nat, o: Output, k: nat, o': Output)
    requires Follows(cfg, "step_att", sin, cos) && Timed(run) && i <= k
    requires o.PathSetpoint? && Publishes(cfg, run, i, o) && o'.PathSetpoint? && Publishes(cfg, run, k, o')
    requires forall m: nat :: i <= m <= k ==> OnPath(cfg, run, m)
    ensures 0.0 <= o.target.pitch <= PITCH_MAX && 0.0 <= o'.target.pitch <= PITCH_MAX
    ensures Abs(o'.target.pitch - o.target.pitch) <= 2.5 * StepPath.DEG2RAD * (run[k].time - run[i].time)
  {
    hide OnPath, Timed, StepPath.StepAttPath;
    var t, t' := SamePhase(cfg, run, i, o, k, o');
    StepPath.StepAttRange(t);
    StepPath.StepAttRange(t');
    StepPath.StepAttSlope(t, t');
  }

  /**
   On the swinging path every setpoint holds the initial position and swings the pitch by 60 degrees in a sine of
   forty seconds, on the clock of the arrival.
   */
  lemma PublishedSwing(cfg: Config, sin: real -> real, cos: real -> real, run: seq<Event>, k: nat, o: Output)
    returns (j: nat)
    requires Follows(cfg, "att", sin, cos) && IsTrig(sin, cos) && Timed(run)
    requires o.PathSetpoint? && Publishes(cfg, run, k, o)
    ensures j < k && Arrives(cfg, run, j)
    ensures var pitch := PI / 3.0 * sin(PI / 20.0 * (run[k].time - run[j].time));
            o == PathSetpoint(TargetCmd(0.0, -1.0, -1.0, 0.0, 0.0, 0.0, pitch, 0.0), false)
  {
    hide Step, At, Published, Arrives, SafeTick, ModeAt, IsTrig, AttPath;
    j := PathSetpointsAreSafe(cfg, run, k, o);
    AttPathLaw(sin, cos, run[k].time - run[j].time);
  }

  /**
   On the circling path the setpoints hover at the initial pose for three seconds and from then on lie half a metre
   from (-0.5, -1), one metre up, level; two of them are as far apart as the time between them says.
   */
  lemma PublishedCircle(cfg: Config, sin: real -> real, cos: real -> real,
                        run: seq<Event>, i: nat, o: Output, k: nat, o': Output) returns (t: real, t': real)
    requires Follows(cfg, "circle_demo", sin, cos) && IsTrig(sin, cos) && Timed(run) && i <= k
    requires o.PathSetpoint? && Publishes(cfg, run, i, o) && o'.PathSetpoint? && Publishes(cfg, run, k, o')
    requires forall m: nat :: i <= m <= k ==> OnPath(cfg, run, m)
    ensures 0.0 <= t && 0.0 <= t' - t == run[k].time - run[i].time
    ensures o == PathSetpoint(TargetCmd(o.target.x, o.target.y, -1.0, 0.0, 0.0, 0.0, 0.0, 0.0), false)
    ensures if t < 3.0
            then o.target.x == 0.0 && o.target.y == -1.0
            else (o.target.x + 0.5) * (o.target.x + 0.5) + (o.target.y + 1.0) * (o.target.y + 1.0) == 0.25
    ensures 3.0 <= t ==> PlaneDistSq(o.target, o'.target) == 0.5 * (1.0 - cos(PI / 15.0 * (run[k].time - run[i].time)))
  {
    hide Step, At, Published, OnPath, Timed, IsTrig, CircleDemo;
    t, t' := SamePhase(cfg, run, i, o, k, o');
    CircleCourse(sin, cos, 3.0, 0);
    if 3.0 <= t {
      CircleLaw(sin, cos, t, t');
    }
  }

  /** Under any other name the setpoints hold the initial pose. */
  lemma PublishedHold(cfg: Config, name: string, sin: real -> real, cos: real -> real,
                      run: seq<Event>, k: nat, o: Output)
    requires Follows(cfg, name, sin, cos) && name !in {"pos", "att", "step_att", "circle_demo", "demo_straight"}
    requires o.PathSetpoint? && Publishes(cfg, run, k, o)
    ensures o == PathSetpoint(TargetCmd(0.0, -1.0, -1.0, 0.0, 0.0, 0.0, 0.0, 0.0), false)
  {
    hide Step, At, Published, Arrives, SafeTick, ModeAt;
    var j := PathSetpointsAreSafe(cfg, run, k, o);
  }
}
