/** The Gazebo servo bridge (`px4_servo_to_gz.cpp`), with the simulated wobble switched off. */
module Gazebo {
  import opened Params
  import opened LowPass
  import opened Servos

  datatype Bridge = Bridge(lpf: seq<Lpf>, returning: bool, lastMessage: real, returnStart: real)

  predicate Shaped(b: Bridge) {
    |b.lpf| == GZ_COUNT
  }

  function Init(ratio: real): Bridge {
    Bridge(seq(GZ_COUNT, _ => Filter(ratio)), false, 0.0, 0.0)
  }

  /** A control that is not finite counts as neutral. */
  function Target(control: Controls, i: nat): real
    requires i < GZ_COUNT
  {
    match control[SERVO_CONTROL_INDEX[i]]
    case Finite(v) => Angle(v, GZ_LIMIT_RAD[i])
    case NonFinite => 0.0 * GZ_LIMIT_RAD[i]
  }

  /** actuatorServosCallback. */
  function Receive(b: Bridge, now: real, control: Controls): Bridge
    requires Shaped(b)
  {
    b.(lastMessage := now, returning := false,
       lpf := seq(GZ_COUNT, i requires 0 <= i < GZ_COUNT => b.lpf[i].Reset(Target(control, i))))
  }

  /** The timer lambda. */
  function Tick(b: Bridge, now: real): Bridge
    requires Shaped(b)
  {
    if now - b.lastMessage < DDS_RECEIVE_TIMEOUT_SEC then b.(returning := false)
    else
      var start := if b.returning then b.returnStart else now;
      var finished := now - start >= SERVO_RETURN_TIME_SEC;
      b.(returning := true, returnStart := start,
         lpf := seq(GZ_COUNT, i requires 0 <= i < GZ_COUNT =>
                  if finished then b.lpf[i].Update(0.0).Reset(0.0) else b.lpf[i].Update(0.0)))
  }

  function Step(b: Bridge, e: Event): (b': Bridge)
    requires Shaped(b)
    ensures Shaped(b')
  {
    match e
    case Servo(t, c) => Receive(b, t, c)
    case Timer(t) => Tick(b, t)
  }

  ghost function At(ratio: real, run: seq<Event>, k: nat): (b: Bridge)
    requires k <= |run|
    ensures Shaped(b)
  {
    if k == 0 then Init(ratio) else Step(At(ratio, run, k - 1), run[k - 1])
  }

  // ---------------------------------------------------------------- the angles

  /** The control that drives joint i: the beta joints pairwise, 1 and 4, 2 and 3, the alpha joints one each. */
  ghost function ControlOf(i: nat): nat {
    if i == 0 || i == 3 then 0 else if i < 3 then 1 else i - 2
  }

  /** The angle that a message asks of joint i; a value that is not finite asks for neutral. */
  ghost function JointCommand(control: Controls, i: nat): real
    requires i < GZ_COUNT
  {
    match control[ControlOf(i)]
    case Finite(v) => Commanded(v, if i < 4 then PI else PI / 6.0)
    case NonFinite => 0.0
  }

  lemma TargetIsCommand(control: Controls, i: nat)
    requires i < GZ_COUNT
    ensures Target(control, i) == JointCommand(control, i)
  {
    assert SERVO_CONTROL_INDEX[i] == ControlOf(i);
    assert GZ_LIMIT_RAD[i] == if i < 4 then PI else PI / 6.0;
  }

  ghost predicate AllSane(b: Bridge, ratio: real)
    requires Shaped(b)
  {
    forall i :: 0 <= i < GZ_COUNT ==> Sane(b.lpf[i], ratio)
  }

  lemma {:induction false} SaneAlways(ratio: real, run: seq<Event>, k: nat)
    requires k <= |run|
    ensures AllSane(At(ratio, run, k), ratio)
  {
    if k > 0 { SaneAlways(ratio, run, k - 1); }
  }

  /** Before the first message the joints stay at neutral. */
  lemma {:induction false} NeutralBefore(ratio: real, run: seq<Event>, k: nat, i: nat)
    requires k <= |run| && i < GZ_COUNT && forall m :: 0 <= m < k ==> !run[m].Servo?
    ensures At(ratio, run, k).lpf[i].y == 0.0
  {
    if k > 0 {
      NeutralBefore(ratio, run, k - 1, i);
      SaneAlways(ratio, run, k - 1);
    }
  }

  /** Every message puts every joint at the angle it asks for. */
  lemma MessageCommands(ratio: real, run: seq<Event>, k: nat, i: nat)
    requires k < |run| && run[k].Servo? && i < GZ_COUNT
    ensures At(ratio, run, k + 1).lpf[i] == Lpf(JointCommand(run[k].control, i), 1.0 - ratio, true)
  {
    hide Lpf.Update, Target, JointCommand;
    SaneAlways(ratio, run, k);
    TargetIsCommand(run[k].control, i);
  }

  /** Event i is the last message before event m. */
  ghost predicate LastMessage(run: seq<Event>, i: nat, m: nat) {
    i < m <= |run| && run[i].Servo? && forall t :: i < t < m ==> !run[t].Servo?
  }

  /** Until the timeout the joints stay where the last message put them. */
  lemma {:induction false} HoldsCommand(ratio: real, run: seq<Event>, i: nat, m: nat, j: nat)
    requires LastMessage(run, i, m) && j < GZ_COUNT
    requires forall t :: i < t < m ==> run[t].time - run[i].time < 0.5
    ensures var b := At(ratio, run, m);
            && !b.returning && b.lastMessage == run[i].time
            && b.lpf[j] == Lpf(JointCommand(run[i].control, j), 1.0 - ratio, true)
  {
    hide Lpf.Update, Target, JointCommand;
    if m == i + 1 {
      MessageCommands(ratio, run, i, j);
    } else {
      HoldsCommand(ratio, run, i, m - 1, j);
    }
  }

  /** Event f is the first timer at least half a second after the message at event i. */
  ghost predicate TimeoutAt(run: seq<Event>, i: nat, f: nat) {
    && i < f < |run| && run[f].time - run[i].time >= 0.5
    && forall t :: i < t < f ==> run[t].time - run[i].time < 0.5
  }

  /**
   From the timeout on every timer multiplies the angle by the ratio; from the first timer five seconds later the
   joint is at neutral.
   */
  lemma {:induction false} ReturnLaw(ratio: real, run: seq<Event>, i: nat, f: nat, m: nat, j: nat)
    requires j < GZ_COUNT && LastMessage(run, i, m) && TimeoutAt(run, i, f) && f < m
    requires forall t, t' :: f <= t < t' < m ==> run[t].time <= run[t'].time
    ensures var b := At(ratio, run, m);
            && b.returning && b.returnStart == run[f].time && b.lastMessage == run[i].time && Sane(b.lpf[j], ratio)
            && b.lpf[j].y == if run[m - 1].time - run[f].time < 5.0
                             then Pow(ratio, m - f) * JointCommand(run[i].control, j)
                             else 0.0
  {
    hide Lpf.Update, Target, JointCommand, Pow;
    var start := JointCommand(run[i].control, j);
    if m == f + 1 {
      HoldsCommand(ratio, run, i, f, j);
      PowZero(ratio);
      UpdateScales(At(ratio, run, f).lpf[j], ratio, 0, start);
    } else {
      ReturnLaw(ratio, run, i, f, m - 1, j);
      if run[m - 2].time - run[f].time < 5.0 {
        UpdateScales(At(ratio, run, m - 1).lpf[j], ratio, m - 1 - f, start);
      } else {
        UpdateScales(At(ratio, run, m - 1).lpf[j], ratio, 0, 0.0);
      }
    }
  }

  /** The time of the last message before event k; the node starts at time 0. */
  ghost function LastHeard(run: seq<Event>, k: nat): real
    requires k <= |run|
  {
    if k == 0 then 0.0 else if run[k - 1].Servo? then run[k - 1].time else LastHeard(run, k - 1)
  }

  lemma {:induction false} HeardAlways(ratio: real, run: seq<Event>, k: nat)
    requires k <= |run|
    ensures At(ratio, run, k).lastMessage == LastHeard(run, k)
  {
    if k > 0 { HeardAlways(ratio, run, k - 1); }
  }

  /** After every event the bridge is returning exactly if the event is a timer half a second after the last message. */
  lemma ReturningIff(ratio: real, run: seq<Event>, k: nat)
    requires k < |run|
    ensures At(ratio, run, k + 1).returning <==> run[k].Timer? && run[k].time - LastHeard(run, k) >= 0.5
  {
    HeardAlways(ratio, run, k);
  }
}
