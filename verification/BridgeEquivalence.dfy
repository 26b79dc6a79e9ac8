/** The two servo bridges keep the same angles, although they are written differently. */
module BridgeEquivalence {
  import opened Params
  import opened Servos
  import Dynamixel
  import Gazebo

  /** Every message has finite values on the controls that the bridges use. */
  ghost predicate FiniteRun(run: seq<Event>) {
    forall i :: 0 <= i < |run| && run[i].Servo? ==> Dynamixel.AllFinite(run[i].control)
  }

  /** Joint i of the simulation holds the filter of the servo that its control drives. */
  ghost predicate SameFilters(d: Dynamixel.Bridge, g: Gazebo.Bridge)
    requires Dynamixel.Shaped(d) && Gazebo.Shaped(g)
  {
    forall i :: 0 <= i < GZ_COUNT ==> g.lpf[i] == d.lpf[SERVO_CONTROL_INDEX[i]]
  }

  ghost predicate AllNeutral(d: Dynamixel.Bridge)
    requires Dynamixel.Shaped(d)
  {
    forall s :: 0 <= s < DXL_COUNT ==> d.lpf[s].y == 0.0
  }

  /**
   The relation that every event keeps. Before the first message the servos rest at neutral and the
   simulation may already be "returning" to it; a completed return on one side is a return that goes on,
   past its time, on the other.
   */
  ghost predicate Related(d: Dynamixel.Bridge, g: Gazebo.Bridge, now: real) {
    && Dynamixel.Shaped(d) && Gazebo.Shaped(g) && SameFilters(d, g)
    && (forall s :: 0 <= s < DXL_COUNT ==> d.lpf[s].initialized)
    && d.received == d.haveGoal
    && (!d.received ==> AllNeutral(d))
    && (d.received ==>
          && d.lastReceive == g.lastMessage
          && (d.returning ==> g.returning && g.returnStart == d.returnStart)
          && (d.returnComplete ==> AllNeutral(d) && !d.returning && g.returning)
          && (d.returnComplete ==> now - g.returnStart >= SERVO_RETURN_TIME_SEC)
          && (!d.returning && !d.returnComplete ==> !g.returning))
    && (d.received && (d.returning || d.returnComplete) ==> now - d.lastReceive >= DDS_RECEIVE_TIMEOUT_SEC)
  }

  lemma RelationKept(d: Dynamixel.Bridge, g: Gazebo.Bridge, before: real, e: Event)
    requires Related(d, g, before) && before <= e.time
    requires e.Servo? ==> Dynamixel.AllFinite(e.control)
    ensures Related(Dynamixel.Step(d, e), Gazebo.Step(g, e), e.time)
  {
  }

  lemma {:induction false} RelatedAlways(ratio: real, run: seq<Event>, k: nat)
    requires k <= |run| && Dynamixel.Timed(run) && FiniteRun(run)
    ensures Related(Dynamixel.At(ratio, run, k), Gazebo.At(ratio, run, k), if k == 0 then 0.0 else run[k - 1].time)
  {
    if k > 0 {
      RelatedAlways(ratio, run, k - 1);
      RelationKept(Dynamixel.At(ratio, run, k - 1), Gazebo.At(ratio, run, k - 1),
                   if k == 1 then 0.0 else run[k - 2].time, run[k - 1]);
    }
  }

  /** On every timed run of finite messages and ticks, joint i always holds the angle of its servo. */
  lemma BridgesAgree(ratio: real, run: seq<Event>, k: nat, i: nat)
    requires k <= |run| && Dynamixel.Timed(run) && FiniteRun(run) && i < GZ_COUNT
    ensures Gazebo.At(ratio, run, k).lpf[i] == Dynamixel.At(ratio, run, k).lpf[SERVO_CONTROL_INDEX[i]]
  {
    RelatedAlways(ratio, run, k);
  }

  /** The bridges agree at the end of a run. */
  ghost predicate Agree(ratio: real, run: seq<Event>) {
    SameFilters(Dynamixel.At(ratio, run, |run|), Gazebo.At(ratio, run, |run|))
  }

  /** After whatever timed run of finite messages it comes, message `c` leaves the bridges in agreement. */
  ghost predicate KeepsAgreement(ratio: real, c: Controls) {
    forall run, t :: FiniteRun(run) && Dynamixel.Timed(run + [Servo(t, c)]) ==> Agree(ratio, run + [Servo(t, c)])
  }

  /** Full deflection on every control. */
  const FULL: Controls := seq(CONTROLS, _ => Finite(1.0))

  /**
   Every message that is not finite on the controls of the servos separates the bridges somewhere: after full
   deflection the Dynamixel bridge drops it, while the joint of the control that is not finite goes to neutral.
   */
  lemma BridgesDisagreeOnNonFinite(ratio: real, c: Controls)
    requires !Dynamixel.AllFinite(c)
    ensures Dynamixel.Timed([Servo(0.0, FULL)] + [Servo(0.0, c)]) && !Agree(ratio, [Servo(0.0, FULL)] + [Servo(0.0, c)])
  {
    var run := [Servo(0.0, FULL)] + [Servo(0.0, c)];
    var s :| 0 <= s < DXL_COUNT && !c[s].Finite?;
    var i := if s < 2 then s else s + 2;
    assert SERVO_CONTROL_INDEX[i] == s;
    FullDeflection(ratio, run, s);
    assert Dynamixel.At(ratio, run, 2) == Dynamixel.At(ratio, run, 1);
    assert Gazebo.At(ratio, run, 2).lpf[i].y == 0.0;
  }

  lemma FullDeflection(ratio: real, run: seq<Event>, s: nat)
    requires |run| > 0 && run[0] == Servo(0.0, FULL) && s < DXL_COUNT
    ensures Dynamixel.At(ratio, run, 1).lpf[s].y == DXL_LIMIT_RAD[s] > 0.0
  {
    assert Dynamixel.AllFinite(FULL);
    assert Dynamixel.At(ratio, run, 0) == Dynamixel.Init(ratio);
  }

  /** Exactly the messages that are finite on the controls of the servos always keep the agreement. */
  lemma AgreementKeptIff(ratio: real, c: Controls)
    ensures KeepsAgreement(ratio, c) <==> Dynamixel.AllFinite(c)
  {
    if Dynamixel.AllFinite(c) {
      forall run, t | FiniteRun(run) && Dynamixel.Timed(run + [Servo(t, c)])
        ensures Agree(ratio, run + [Servo(t, c)])
      {
        var longer := run + [Servo(t, c)];
        RelatedAlways(ratio, longer, |longer|);
      }
    } else {
      BridgesDisagreeOnNonFinite(ratio, c);
      assert FiniteRun([Servo(0.0, FULL)]);
    }
  }
}
