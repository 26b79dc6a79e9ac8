/** The Dynamixel servo bridge (`px4_servo_to_dynamixel.cpp`): state, callbacks, and what every run keeps. */
module Dynamixel {
  import opened Params
  import opened LowPass
  import opened Servos

  datatype Bridge = Bridge(
    lpf: seq<Lpf>,
    goal: seq<int>,          // latest_goal_ppr_
    received: bool,
    haveGoal: bool,
    returning: bool,
    returnComplete: bool,
    lastReceive: real,
    returnStart: real)

  predicate Shaped(b: Bridge) {
    |b.lpf| == |b.goal| == DXL_COUNT
  }

  /** The node after its constructor has returned the servos to neutral, at time 0. */
  function Init(ratio: real): Bridge {
    Bridge(seq(DXL_COUNT, _ => Filter(ratio)), seq(DXL_COUNT, _ => 0), false, false, false, false, 0.0, 0.0)
  }

  predicate AllFinite(control: Controls) {
    forall i :: 0 <= i < DXL_COUNT ==> control[i].Finite?
  }

  function Target(control: Controls, i: nat): real
    requires i < DXL_COUNT && AllFinite(control)
  {
    Angle(control[i].v, DXL_LIMIT_RAD[i])
  }

  /** dds_callback. */
  function Receive(b: Bridge, now: real, control: Controls): Bridge
    requires Shaped(b)
  {
    if !AllFinite(control) then b
    else
      b.(lastReceive := now, received := true, haveGoal := true, returning := false, returnComplete := false,
         lpf := seq(DXL_COUNT, i requires 0 <= i < DXL_COUNT => b.lpf[i].Reset(Target(control, i))),
         goal := seq(DXL_COUNT, i requires 0 <= i < DXL_COUNT => ToPpr(i, Target(control, i))))
  }

  predicate TimedOut(b: Bridge, now: real) {
    now - b.lastReceive >= DDS_RECEIVE_TIMEOUT_SEC
  }

  /** When the current return to neutral began, if a tick at `now` continues or begins one. */
  function ReturnStart(b: Bridge, now: real): real {
    if b.returning then b.returnStart else now
  }

  /** timeout_callback, up to the write of the goals. */
  function Timeout(b: Bridge, now: real): Bridge
    requires Shaped(b)
  {
    if !b.received || !b.haveGoal || !TimedOut(b, now) || b.returnComplete then b
    else
      var start := ReturnStart(b, now);
      if now - start >= SERVO_RETURN_TIME_SEC then
        b.(returning := false, returnComplete := true, returnStart := start,
           lpf := seq(DXL_COUNT, i requires 0 <= i < DXL_COUNT => b.lpf[i].Reset(0.0)),
           goal := seq(DXL_COUNT, i requires 0 <= i < DXL_COUNT => ToPpr(i, 0.0)))
      else
        b.(returning := true, returnStart := start,
           lpf := seq(DXL_COUNT, i requires 0 <= i < DXL_COUNT => b.lpf[i].Update(0.0)),
           goal := seq(DXL_COUNT, i requires 0 <= i < DXL_COUNT => ToPpr(i, b.lpf[i].Update(0.0).y)))
  }

  function Step(b: Bridge, e: Event): (b': Bridge)
    requires Shaped(b)
    ensures Shaped(b')
  {
    match e
    case Servo(t, c) => Receive(b, t, c)
    case Timer(t) => Timeout(b, t)
  }

  ghost function At(ratio: real, run: seq<Event>, k: nat): (b: Bridge)
    requires k <= |run|
    ensures Shaped(b)
  {
    if k == 0 then Init(ratio) else Step(At(ratio, run, k - 1), run[k - 1])
  }

  ghost predicate Timed(run: seq<Event>) {
    && (forall i :: 0 <= i < |run| ==> 0.0 <= run[i].time)
    && (forall i, j :: 0 <= i < j < |run| ==> run[i].time <= run[j].time)
  }

  // ---------------------------------------------------------------- every state

  ghost predicate WithinLimit(l: Lpf, i: nat)
    requires i < DXL_COUNT
  {
    -DXL_LIMIT_RAD[i] <= l.y <= DXL_LIMIT_RAD[i]
  }

  ghost predicate Invariant(b: Bridge, ratio: real) {
    && Shaped(b)
    && (forall i :: 0 <= i < DXL_COUNT ==> Sane(b.lpf[i], ratio) && WithinLimit(b.lpf[i], i))
    && (b.haveGoal ==> forall i :: 0 <= i < DXL_COUNT ==> b.goal[i] == ToPpr(i, b.lpf[i].y))
    && !(b.returning && b.returnComplete)
    && b.received == b.haveGoal
    && (b.returning || b.returnComplete ==> b.received)
    && (b.returnComplete ==> forall i :: 0 <= i < DXL_COUNT ==> b.lpf[i].y == 0.0)
  }

  lemma ResetKeepsLimit(l: Lpf, control: Controls, i: nat)
    requires i < DXL_COUNT && AllFinite(control)
    ensures WithinLimit(l.Reset(Target(control, i)), i)
  {
    AngleWithin(control[i].v, DXL_LIMIT_RAD[i]);
  }

  /** An update towards neutral keeps the angle on its side and does not move it away. */
  lemma UpdateTowardNeutral(l: Lpf, ratio: real)
    requires 0.0 < ratio < 1.0 && Sane(l, ratio)
    ensures Sane(l.Update(0.0), ratio) && Between(l.y, l.Update(0.0).y, 0.0)
  {
    UpdateBetween(l, 0.0);
  }

  lemma InvariantKept(b: Bridge, e: Event, ratio: real)
    requires 0.0 < ratio < 1.0 && Invariant(b, ratio)
    ensures Invariant(Step(b, e), ratio)
  {
    hide ToPpr, Target, Lpf.Update, Between;
    var b' := Step(b, e);
    forall i | 0 <= i < DXL_COUNT
      ensures Sane(b'.lpf[i], ratio) && WithinLimit(b'.lpf[i], i)
    {
      UpdateTowardNeutral(b.lpf[i], ratio);
      UpdateWithin(b.lpf[i], i, ratio);
      if e.Servo? && AllFinite(e.control) {
        ResetKeepsLimit(b.lpf[i], e.control, i);
      }
    }
  }

  lemma UpdateWithin(l: Lpf, i: nat, ratio: real)
    requires i < DXL_COUNT && 0.0 < ratio < 1.0 && Sane(l, ratio) && WithinLimit(l, i)
    ensures WithinLimit(l.Update(0.0), i)
  {
  }

  lemma {:induction false} InvariantAlways(ratio: real, run: seq<Event>, k: nat)
    requires 0.0 < ratio < 1.0 && k <= |run|
    ensures Invariant(At(ratio, run, k), ratio)
  {
    if k > 0 {
      InvariantAlways(ratio, run, k - 1);
      InvariantKept(At(ratio, run, k - 1), run[k - 1], ratio);
    }
  }

  /**
   In every interleaving: a goal is the goal of the filtered angle, inside the servo's range; the flags exclude each
   other.
   */
  lemma GoalsInRange(ratio: real, run: seq<Event>, k: nat, i: nat)
    requires 0.0 < ratio < 1.0 && k <= |run| && i < DXL_COUNT
    ensures var b := At(ratio, run, k);
            && !(b.returning && b.returnComplete)
            && WithinLimit(b.lpf[i], i)
            && (b.haveGoal ==>
                  && b.goal[i] == ToPpr(i, b.lpf[i].y)
                  && 0 <= b.goal[i] <= 4095
                  && (i >= 2 ==> ZERO_PPR - 341 <= b.goal[i] <= ZERO_PPR + 341))
  {
    hide ToPpr;
    InvariantAlways(ratio, run, k);
    ToPprRange(i, At(ratio, run, k).lpf[i].y);
  }

  // ---------------------------------------------------------------- silence

  /** A message with six finite controls, one for each servo; the other two do not matter. */
  ghost predicate FiniteMessage(e: Event) {
    e.Servo? && forall i :: 0 <= i < 6 ==> e.control[i].Finite?
  }

  /** No usable message among events i .. k - 1. Messages with a non-finite control may still arrive. */
  ghost predicate Silent(run: seq<Event>, i: nat, k: nat) {
    forall m :: i <= m < k && m < |run| ==> !FiniteMessage(run[m])
  }

  /** Goal g' is on the same side of neutral as g, and not farther away. */
  predicate Closer(g': int, g: int) {
    g <= g' <= ZERO_PPR || ZERO_PPR <= g' <= g
  }

  lemma GoalStepsCloser(b: Bridge, e: Event, ratio: real, i: nat)
    requires 0.0 < ratio < 1.0 && Invariant(b, ratio) && b.haveGoal && !FiniteMessage(e) && i < DXL_COUNT
    ensures Step(b, e).haveGoal && Closer(Step(b, e).goal[i], b.goal[i])
  {
    hide ToPpr, Lpf.Update;
    UpdateTowardNeutral(b.lpf[i], ratio);
    ToPprBetween(i, b.lpf[i].Update(0.0).y, b.lpf[i].y);
    ToPprBetween(i, 0.0, b.lpf[i].y);
    ToPprBetween(i, b.lpf[i].y, b.lpf[i].y);
  }

  /** Without a usable message no goal ever moves away from neutral or changes side. */
  lemma {:induction false} GoalsNeverMoveAway(ratio: real, run: seq<Event>, j: nat, k: nat, i: nat)
    requires 0.0 < ratio < 1.0 && j <= k <= |run| && i < DXL_COUNT
    requires Silent(run, j, k) && At(ratio, run, j).haveGoal
    ensures At(ratio, run, k).haveGoal
    ensures Closer(At(ratio, run, k).goal[i], At(ratio, run, j).goal[i])
  {
    if j < k {
      GoalsNeverMoveAway(ratio, run, j, k - 1, i);
      InvariantAlways(ratio, run, k - 1);
      GoalStepsCloser(At(ratio, run, k - 1), run[k - 1], ratio, i);
    }
  }

  /** Event i is the last usable message and f the first tick that finds it timed out. */
  ghost predicate TimeoutAt(run: seq<Event>, i: nat, f: nat) {
    && i < f < |run|
    && FiniteMessage(run[i]) && run[f].Timer?
    && run[f].time - run[i].time >= 0.5
    && forall m :: i < m < f && run[m].Timer? ==> run[m].time - run[i].time < 0.5
  }

  lemma {:induction false} BeforeTimeout(ratio: real, run: seq<Event>, i: nat, f: nat, m: nat)
    requires TimeoutAt(run, i, f) && i < m <= f && Silent(run, i + 1, f)
    ensures var b := At(ratio, run, m);
            b.received && b.haveGoal && b.lastReceive == run[i].time && !b.returning && !b.returnComplete
  {
    hide ToPpr, Lpf.Update;
    if m > i + 1 {
      BeforeTimeout(ratio, run, i, f, m - 1);
      assert !FiniteMessage(run[m - 1]);
    }
  }

  /** After the timeout tick the return runs, dated from that tick, until it is complete. */
  lemma {:induction false} AfterTimeout(ratio: real, run: seq<Event>, i: nat, f: nat, m: nat)
    requires TimeoutAt(run, i, f) && f < m <= |run| && Silent(run, i + 1, m)
    ensures var b := At(ratio, run, m);
            && b.received && b.haveGoal && b.lastReceive == run[i].time
            && ((b.returning && b.returnStart == run[f].time) || b.returnComplete)
  {
    hide ToPpr, Lpf.Update;
    if m == f + 1 {
      BeforeTimeout(ratio, run, i, f, f);
    } else {
      AfterTimeout(ratio, run, i, f, m - 1);
      assert !FiniteMessage(run[m - 1]);
    }
  }

  lemma {:induction false} StaysComplete(ratio: real, run: seq<Event>, g: nat, k: nat)
    requires g <= k <= |run| && Silent(run, g, k) && At(ratio, run, g).returnComplete
    ensures At(ratio, run, k) == At(ratio, run, g)
  {
    hide ToPpr, Lpf.Update;
    if g < k {
      StaysComplete(ratio, run, g, k - 1);
      assert !FiniteMessage(run[k - 1]);
    }
  }

  /**
   Any tick at least the return time after the first timed-out tick leaves all goals at neutral, and
   they stay there until a usable message, however many unusable ones arrive.
   */
  lemma ReturnsToNeutral(ratio: real, run: seq<Event>, i: nat, f: nat, g: nat, k: nat)
    requires 0.0 < ratio < 1.0 && Timed(run)
    requires TimeoutAt(run, i, f) && f < g < k <= |run| && Silent(run, i + 1, k)
    requires run[g].Timer? && run[g].time - run[f].time >= 5.0
    ensures var b := At(ratio, run, k);
            forall s :: 0 <= s < DXL_COUNT ==> b.goal[s] == ZERO_PPR && b.lpf[s].y == 0.0
  {
    AfterTimeout(ratio, run, i, f, g);
    assert At(ratio, run, g + 1).returnComplete by {
      hide ToPpr, Lpf.Update;
      assert run[f].time <= run[g].time;
    }
    StaysComplete(ratio, run, g + 1, k);
    InvariantAlways(ratio, run, k);
    forall s | 0 <= s < DXL_COUNT
      ensures At(ratio, run, k).goal[s] == ZERO_PPR
    {
      hide At;
      ToPprBetween(s, 0.0, 0.0);
    }
  }

  // ---------------------------------------------------------------- the angles

  /** Until the first usable message nothing happens. */
  lemma {:induction false} IdleBefore(ratio: real, run: seq<Event>, k: nat)
    requires k <= |run| && Silent(run, 0, k)
    ensures At(ratio, run, k) == Init(ratio)
  {
    hide ToPpr, Lpf.Update;
    if k > 0 {
      IdleBefore(ratio, run, k - 1);
      assert !FiniteMessage(run[k - 1]);
    }
  }

  /** A usable message puts every servo at the angle it asks for, whatever state it finds. */
  lemma MessageCommands(ratio: real, run: seq<Event>, k: nat, s: nat)
    requires 0.0 < ratio < 1.0 && k < |run| && FiniteMessage(run[k]) && s < DXL_COUNT
    ensures var b := At(ratio, run, k + 1);
            b.haveGoal && b.lpf[s] == Lpf(Commanded(run[k].control[s].v, LimitOf(s)), 1.0 - ratio, true)
  {
    hide ToPpr, Lpf.Update, Angle;
    InvariantAlways(ratio, run, k);
    AngleIsCommanded(run[k].control[s].v, s);
  }

  /** In every state every goal is the tick nearest to the angle of its servo. */
  lemma GoalsAreNearest(ratio: real, run: seq<Event>, k: nat, s: nat)
    requires 0.0 < ratio < 1.0 && k <= |run| && s < DXL_COUNT && At(ratio, run, k).haveGoal
    ensures NearestTick(At(ratio, run, k).goal[s], s, At(ratio, run, k).lpf[s].y)
  {
    hide ToPpr, NearestTick;
    InvariantAlways(ratio, run, k);
    ToPprNearest(s, At(ratio, run, k).lpf[s].y);
  }

  /** Until the timeout the servos stay where the last usable message put them. */
  lemma {:induction false} HoldsCommand(ratio: real, run: seq<Event>, i: nat, m: nat, s: nat)
    requires 0.0 < ratio < 1.0 && i < m <= |run| && FiniteMessage(run[i]) && Silent(run, i + 1, m) && s < DXL_COUNT
    requires forall t :: i < t < m && run[t].Timer? ==> run[t].time - run[i].time < 0.5
    ensures var b := At(ratio, run, m);
            && b.received && b.haveGoal && b.lastReceive == run[i].time && !b.returning && !b.returnComplete
            && b.lpf[s] == Lpf(Commanded(run[i].control[s].v, LimitOf(s)), 1.0 - ratio, true)
  {
    hide ToPpr, Lpf.Update, Angle, Commanded, LimitOf;
    if m == i + 1 {
      MessageCommands(ratio, run, i, s);
    } else {
      HoldsCommand(ratio, run, i, m - 1, s);
      assert !FiniteMessage(run[m - 1]);
    }
  }

  /**
   From the timeout on every timer multiplies the angle by the ratio, until the return is over: after n timers it is
   the n-th power of the ratio times the angle last asked for, whatever unusable messages arrive.
   */
  lemma {:induction false} ReturnLaw(ratio: real, run: seq<Event>, i: nat, f: nat, m: nat, s: nat)
    requires 0.0 < ratio < 1.0 && s < DXL_COUNT
    requires TimeoutAt(run, i, f) && f < m <= |run| && Silent(run, i + 1, m)
    requires forall t :: f < t < m && run[t].Timer? ==> 0.0 <= run[t].time - run[f].time < 5.0
    ensures var b := At(ratio, run, m);
            && b.received && b.haveGoal && b.lastReceive == run[i].time && b.returning && b.returnStart == run[f].time
            && !b.returnComplete && Sane(b.lpf[s], ratio)
            && b.lpf[s].y == Pow(ratio, Timers(run, f, m)) * Commanded(run[i].control[s].v, LimitOf(s))
  {
    hide ToPpr, Lpf.Update, Angle, Commanded, LimitOf, Pow;
    var start := Commanded(run[i].control[s].v, LimitOf(s));
    if m == f + 1 {
      HoldsCommand(ratio, run, i, f, s);
      assert Timers(run, f, f) == 0;
      PowZero(ratio);
      UpdateScales(At(ratio, run, f).lpf[s], ratio, 0, start);
    } else {
      ReturnLaw(ratio, run, i, f, m - 1, s);
      assert !FiniteMessage(run[m - 1]);
      UpdateScales(At(ratio, run, m - 1).lpf[s], ratio, Timers(run, f, m - 1), start);
    }
  }
}
