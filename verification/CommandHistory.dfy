/**
 What the messages of a run said, read off its events alone: no state of the node is mentioned here. The
 numbers are those that a pilot would check: messages older than one second do not count, the vehicle has arrived
 within 15 cm and five degrees.
 */
module CommandHistory {
  import opened Options
  import opened Params
  import opened Reals
  import opened Angles
  import opened Paths
  import opened PositionCommand

  predicate IsSource(e: Event) { e.SourceMsg? }
  predicate IsPosition(e: Event) { e.PositionMsg? }
  predicate IsAttitude(e: Event) { e.AttitudeMsg? }
  predicate IsStatus(e: Event) { e.StatusMsg? }

  /** The last event of a kind before event k. */
  ghost function LastBefore(run: seq<Event>, k: nat, kind: Event -> bool): (r: Option<nat>)
    requires k <= |run|
    ensures r.Some? ==> r.value < k && kind(run[r.value])
  {
    if k == 0 then None
    else if kind(run[k - 1]) then Some(k - 1)
    else LastBefore(run, k - 1, kind)
  }

  /** Event i is of the kind, and none between it and event k is. */
  ghost predicate IsLast(run: seq<Event>, k: nat, kind: Event -> bool, i: nat) {
    i < k <= |run| && kind(run[i]) && forall m :: i < m < k ==> !kind(run[m])
  }

  /** It is there exactly if some event of the kind came, and then no later one did. */
  lemma {:induction false} LastBeforeIff(run: seq<Event>, k: nat, kind: Event -> bool, i: nat)
    requires k <= |run|
    ensures LastBefore(run, k, kind) == Some(i) <==> IsLast(run, k, kind, i)
    ensures LastBefore(run, k, kind).None? <==> forall m :: 0 <= m < k ==> !kind(run[m])
  {
    if k > 0 {
      LastBeforeIff(run, k - 1, kind, i);
    }
  }

  /** DDS is the selected source at event k: so said the last source message, at most a second ago. */
  ghost predicate DdsSelected(run: seq<Event>, k: nat) {
    && k < |run|
    && match LastBefore(run, k, IsSource)
       case Some(i) => run[i].source == Dds && run[k].time - run[i].time <= 1.0
       case None => false
  }

  /** The last status message came at most a second before event k. */
  ghost predicate StatusHeard(run: seq<Event>, k: nat) {
    && k < |run|
    && match LastBefore(run, k, IsStatus)
       case Some(i) => run[k].time - run[i].time <= 1.0
       case None => false
  }

  /** The vehicle was in OFFBOARD when it last reported. */
  ghost predicate InOffboard(run: seq<Event>, k: nat) {
    && k < |run|
    && match LastBefore(run, k, IsStatus)
       case Some(i) => run[i].status.offboard
       case None => false
  }

  /** The vehicle was armed when it last reported. */
  ghost predicate IsArmed(run: seq<Event>, k: nat) {
    && k < |run|
    && match LastBefore(run, k, IsStatus)
       case Some(i) => run[i].status.armed
       case None => false
  }

  /** The last position message came at most a second before event k and is valid on all axes. */
  ghost predicate PositionKnown(run: seq<Event>, k: nat) {
    && k < |run|
    && match LastBefore(run, k, IsPosition)
       case Some(i) => run[i].position.xyValid && run[i].position.zValid && run[k].time - run[i].time <= 1.0
       case None => false
  }

  /** The last attitude message came at most a second before event k and is finite. */
  ghost predicate AttitudeKnown(run: seq<Event>, k: nat) {
    && k < |run|
    && match LastBefore(run, k, IsAttitude)
       case Some(i) => run[i].attitude.finite && run[k].time - run[i].time <= 1.0
       case None => false
  }

  ghost predicate WithinFiveDegrees(angle: real) {
    exists turns: int :: Abs(angle + Turns(turns)) <= PI / 36.0
  }

  /** Within 15 cm of (0, -1, -1). */
  ghost predicate WithinFifteenCm(p: LocalPosition) {
    p.x * p.x + (p.y + 1.0) * (p.y + 1.0) + (p.z + 1.0) * (p.z + 1.0) <= 0.0225
  }

  /** The known position is within 15 cm of (0, -1, -1), and heading and attitude are level within five degrees. */
  ghost predicate AtInitialPose(run: seq<Event>, k: nat) {
    && PositionKnown(run, k) && AttitudeKnown(run, k)
    && var p := run[LastBefore(run, k, IsPosition).value].position;
       var a := run[LastBefore(run, k, IsAttitude).value].attitude;
       && WithinFifteenCm(p)
       && WithinFiveDegrees(p.heading) && WithinFiveDegrees(a.roll) && WithinFiveDegrees(a.pitch)
  }

  /** Where a handoff that begins at event j starts: at the vehicle if its position is known, else at the goal. */
  ghost function StartOf(run: seq<Event>, j: nat): TargetCmd {
    if PositionKnown(run, j) then
      var p := run[LastBefore(run, j, IsPosition).value].position;
      TargetCmd(p.x, p.y, p.z, 0.0, 0.0, 0.0, 0.0, p.heading)
    else TargetCmd(0.0, -1.0, -1.0, 0.0, 0.0, 0.0, 0.0, 0.0)
  }

  /** A tick that saw DDS selected and a vehicle that has just reported itself in OFFBOARD, and armed if asked. */
  ghost predicate SafeTick(cfg: Config, run: seq<Event>, k: nat) {
    && k < |run| && run[k].Tick?
    && DdsSelected(run, k) && StatusHeard(run, k) && InOffboard(run, k) && (cfg.autoArm ==> IsArmed(run, k))
  }

  /** The mode that a tick leads to, from what the messages before it said. */
  ghost function NextMode(cfg: Config, run: seq<Event>, k: nat, mode: ControlMode): ControlMode
    requires k < |run|
  {
    var ready := cfg.autoArm ==> IsArmed(run, k);
    if !run[k].Tick? then mode
    else if !DdsSelected(run, k) then if mode in {Handoff, PathActive} then WaitOffboard else mode
    else if !StatusHeard(run, k) then if mode == PathActive then WaitOffboard else mode
    else
      match mode
      case WaitOffboard =>
        if run[k].time < 0.5 || !InOffboard(run, k) then WaitOffboard else if ready then Handoff else WaitArm
      case WaitArm => if ready then Handoff else WaitArm
      case Handoff => if AtInitialPose(run, k) then PathActive else Handoff
      case PathActive => if !InOffboard(run, k) then WaitOffboard else if ready then PathActive else WaitArm
  }

  /** The mode before event k as the messages determine it. */
  ghost function ModeAt(cfg: Config, run: seq<Event>, k: nat): ControlMode
    requires k <= |run|
  {
    if k == 0 then WaitOffboard else NextMode(cfg, run, k - 1, ModeAt(cfg, run, k - 1))
  }

  ghost predicate InHandoff(cfg: Config, run: seq<Event>, k: nat) {
    k <= |run| && ModeAt(cfg, run, k) == Handoff
  }

  ghost predicate OnPath(cfg: Config, run: seq<Event>, k: nat) {
    k <= |run| && ModeAt(cfg, run, k) == PathActive
  }

  /** Event j begins a handoff. */
  ghost predicate Enters(cfg: Config, run: seq<Event>, j: nat) {
    j < |run| && !InHandoff(cfg, run, j) && InHandoff(cfg, run, j + 1)
  }

  /** Event j is a handoff tick, with DDS selected and status heard, that finds the vehicle at the initial pose. */
  ghost predicate Arrives(cfg: Config, run: seq<Event>, j: nat) {
    && InHandoff(cfg, run, j) && j < |run| && run[j].Tick?
    && DdsSelected(run, j) && StatusHeard(run, j) && AtInitialPose(run, j)
  }

  /** Every tick strictly between events j and k is safe. */
  ghost predicate SafeBetween(cfg: Config, run: seq<Event>, j: int, k: int) {
    forall i: nat :: j < i < k && i < |run| && run[i].Tick? ==> SafeTick(cfg, run, i)
  }

  /** Every tick strictly between events j and k found DDS selected and did not arrive. */
  ghost predicate OnTheWay(cfg: Config, run: seq<Event>, j: int, k: int) {
    forall i: nat :: j < i < k && i < |run| && run[i].Tick? ==> DdsSelected(run, i) && !Arrives(cfg, run, i)
  }

  /** The point of the path at time t, moved to the initial pose. */
  ghost function PathPoint(cfg: Config, t: real): TargetCmd {
    var p := (cfg.path)(t);
    TargetCmd(p.x, p.y - 1.0, p.z - 1.0, p.vx, p.vy, p.roll, p.pitch, p.yaw)
  }

  /** The node is on the path at event k exactly if it arrived before and every tick since was safe. */
  lemma OnPathIff(cfg: Config, run: seq<Event>, k: nat)
    requires k <= |run|
    ensures OnPath(cfg, run, k) <==> exists j: nat :: j < k && Arrives(cfg, run, j) && SafeBetween(cfg, run, j, k)
  {
    if OnPath(cfg, run, k) {
      var j := PathBegan(cfg, run, k);
    }
    forall j: nat | j < k && Arrives(cfg, run, j) && SafeBetween(cfg, run, j, k)
      ensures OnPath(cfg, run, k)
    {
      SafeKeepsPath(cfg, run, j, k);
    }
  }

  lemma {:induction false} PathBegan(cfg: Config, run: seq<Event>, k: nat) returns (j: nat)
    requires OnPath(cfg, run, k)
    ensures j < k && Arrives(cfg, run, j) && SafeBetween(cfg, run, j, k)
    ensures forall i: nat :: j < i <= k ==> OnPath(cfg, run, i)
  {
    hide DdsSelected, StatusHeard, InOffboard, IsArmed, AtInitialPose;
    if OnPath(cfg, run, k - 1) {
      j := PathBegan(cfg, run, k - 1);
    } else {
      j := k - 1;
    }
  }

  lemma {:induction false} SafeKeepsPath(cfg: Config, run: seq<Event>, j: nat, k: nat)
    requires j < k <= |run| && Arrives(cfg, run, j) && SafeBetween(cfg, run, j, k)
    ensures OnPath(cfg, run, k)
  {
    hide DdsSelected, StatusHeard, InOffboard, IsArmed, AtInitialPose;
    if j < k - 1 {
      SafeKeepsPath(cfg, run, j, k - 1);
    }
  }

  /** A handoff is under way at event k exactly if it began, DDS stayed selected and the pose was not reached. */
  lemma InHandoffIff(cfg: Config, run: seq<Event>, k: nat)
    requires k <= |run|
    ensures InHandoff(cfg, run, k) <==> exists j: nat :: j < k && Enters(cfg, run, j) && OnTheWay(cfg, run, j, k)
  {
    if InHandoff(cfg, run, k) {
      var j := HandoffBegan(cfg, run, k);
    }
    forall j: nat | j < k && Enters(cfg, run, j) && OnTheWay(cfg, run, j, k)
      ensures InHandoff(cfg, run, k)
    {
      WayKeepsHandoff(cfg, run, j, k);
    }
  }

  lemma {:induction false} HandoffBegan(cfg: Config, run: seq<Event>, k: nat) returns (j: nat)
    requires InHandoff(cfg, run, k)
    ensures j < k && Enters(cfg, run, j) && OnTheWay(cfg, run, j, k)
    ensures forall i: nat :: j < i <= k ==> InHandoff(cfg, run, i)
  {
    hide DdsSelected, StatusHeard, InOffboard, IsArmed, AtInitialPose;
    if InHandoff(cfg, run, k - 1) {
      j := HandoffBegan(cfg, run, k - 1);
    } else {
      j := k - 1;
    }
  }

  lemma {:induction false} WayKeepsHandoff(cfg: Config, run: seq<Event>, j: nat, k: nat)
    requires j < k <= |run| && Enters(cfg, run, j) && OnTheWay(cfg, run, j, k)
    ensures InHandoff(cfg, run, k)
  {
    hide DdsSelected, StatusHeard, InOffboard, IsArmed, AtInitialPose;
    if j < k - 1 {
      WayKeepsHandoff(cfg, run, j, k - 1);
    }
  }

  /** A handoff begins at a tick that hears, with DDS selected, of a vehicle that is armed or need not be. */
  lemma EntersIff(cfg: Config, run: seq<Event>, j: nat)
    requires j < |run|
    ensures Enters(cfg, run, j) <==>
            && run[j].Tick? && DdsSelected(run, j) && StatusHeard(run, j) && (cfg.autoArm ==> IsArmed(run, j))
            && (ModeAt(cfg, run, j) == WaitArm
                || (ModeAt(cfg, run, j) == WaitOffboard && 0.5 <= run[j].time && InOffboard(run, j)))
  {
    hide DdsSelected, StatusHeard, InOffboard, IsArmed, AtInitialPose;
  }
}
