/** What the two servo bridges share: commands, limits and the servo table of `params.hpp`. */
module Servos {
  import opened Params
  import opened LowPass

  /** A float of an ActuatorServos message. */
  datatype Float = Finite(v: real) | NonFinite

  const CONTROLS: nat := 8   // length of ActuatorServos.control
  const DXL_COUNT: nat := 6
  const GZ_COUNT: nat := 8

  /** An ActuatorServos message. */
  type Controls = c: seq<Float> | |c| == CONTROLS witness seq(CONTROLS, _ => NonFinite)

  datatype Event = Servo(time: real, control: Controls) | Timer(time: real)

  const DXL_LIMIT_RAD: seq<real> :=
    [BETA_LIMIT_RAD, BETA_LIMIT_RAD, ALPHA_LIMIT_RAD, ALPHA_LIMIT_RAD, ALPHA_LIMIT_RAD, ALPHA_LIMIT_RAD]
  const DXL_DIRECTION: seq<int> := [1, -1, 1, 1, 1, 1]
  const ZERO_PPR: int := 2048
  const MIN_PPR: int := 0
  const MAX_PPR: int := 4095

  const SERVO_CONTROL_INDEX: seq<nat> := [0, 1, 1, 0, 2, 3, 4, 5]
  const GZ_LIMIT_RAD: seq<real> :=
    [BETA_LIMIT_RAD, BETA_LIMIT_RAD, BETA_LIMIT_RAD, BETA_LIMIT_RAD,
     ALPHA_LIMIT_RAD, ALPHA_LIMIT_RAD, ALPHA_LIMIT_RAD, ALPHA_LIMIT_RAD]

  function Clamp(x: real, lo: real, hi: real): real {
    if x < lo then lo else if hi < x then hi else x
  }

  function ClampInt(x: int, lo: int, hi: int): int {
    if x < lo then lo else if hi < x then hi else x
  }

  /** std::lround: to the nearest integer, halves away from zero. */
  function Lround(x: real): int {
    if x >= 0.0 then (x + 0.5).Floor else -((-x + 0.5).Floor)
  }

  /** to_ppr for servo i. */
  function ToPpr(i: nat, rad: real): int
    requires i < DXL_COUNT
  {
    ClampInt(Lround(ZERO_PPR as real + DXL_DIRECTION[i] as real * rad * PPR_PER_RAD), MIN_PPR, MAX_PPR)
  }

  /** A normalised control value as an angle. */
  function Angle(v: real, limit: real): real {
    Clamp(v, -1.0, 1.0) * limit
  }

  predicate Sane(l: Lpf, ratio: real) {
    l.initialized && l.alpha == 1.0 - ratio
  }

  function Filter(ratio: real): Lpf {
    Make(SERVO_RETURN_TIME_SEC, ratio).Reset(0.0)
  }

  // ---------------------------------------------------------------- ticks of a servo

  lemma LroundMonotone(x: real, y: real)
    requires x <= y
    ensures Lround(x) <= Lround(y)
  {
  }

  /** The unrounded position of servo i. */
  ghost function Ticks(i: nat, rad: real): real
    requires i < DXL_COUNT
  {
    ZERO_PPR as real + DXL_DIRECTION[i] as real * rad * PPR_PER_RAD
  }

  lemma TicksMonotone(i: nat, r: real, s: real)
    requires i < DXL_COUNT && r <= s
    ensures if i == 1 then Ticks(i, s) <= Ticks(i, r) else Ticks(i, r) <= Ticks(i, s)
    ensures Ticks(i, 0.0) == 2048.0
  {
    assert DXL_DIRECTION[i] == if i == 1 then -1 else 1;
  }

  lemma ToPprMonotone(i: nat, r: real, s: real)
    requires i < DXL_COUNT && r <= s
    ensures if i == 1 then ToPpr(i, s) <= ToPpr(i, r) else ToPpr(i, r) <= ToPpr(i, s)
  {
    hide Lround;
    TicksMonotone(i, r, s);
    if i == 1 {
      LroundMonotone(Ticks(i, s), Ticks(i, r));
    } else {
      LroundMonotone(Ticks(i, r), Ticks(i, s));
    }
  }

  /** An angle between the neutral position and another angle has a goal between theirs. */
  lemma ToPprBetween(i: nat, r: real, s: real)
    requires i < DXL_COUNT && Between(s, r, 0.0)
    ensures ToPpr(i, 0.0) == ZERO_PPR
    ensures ToPpr(i, s) <= ToPpr(i, r) <= ZERO_PPR || ZERO_PPR <= ToPpr(i, r) <= ToPpr(i, s)
  {
    assert ToPpr(i, 0.0) == ZERO_PPR;
    hide ToPpr;
    if s <= 0.0 {
      ToPprMonotone(i, s, r);
      ToPprMonotone(i, r, 0.0);
    } else {
      ToPprMonotone(i, r, s);
      ToPprMonotone(i, 0.0, r);
    }
  }

  lemma ToPprClamped(i: nat, rad: real)
    requires i < DXL_COUNT
    ensures 0 <= ToPpr(i, rad) <= 4095
  {
    hide Lround;
  }

  /** The goals at the two ends of the range of an alpha servo. */
  lemma AlphaEnds(i: nat)
    requires 2 <= i < DXL_COUNT
    ensures ToPpr(i, -ALPHA_LIMIT_RAD) == ZERO_PPR - 341 && ToPpr(i, ALPHA_LIMIT_RAD) == ZERO_PPR + 341
  {
    assert DXL_DIRECTION[i] == 1;
  }

  /** Within its angle limit a beta servo stays in 0..4095 and an alpha servo within 341 of neutral. */
  lemma ToPprRange(i: nat, rad: real)
    requires i < DXL_COUNT && -DXL_LIMIT_RAD[i] <= rad <= DXL_LIMIT_RAD[i]
    ensures 0 <= ToPpr(i, rad) <= 4095
    ensures i >= 2 ==> ZERO_PPR - 341 <= ToPpr(i, rad) <= ZERO_PPR + 341
  {
    hide ToPpr;
    ToPprClamped(i, rad);
    if i >= 2 {
      assert DXL_LIMIT_RAD[i] == ALPHA_LIMIT_RAD;
      AlphaEnds(i);
      ToPprMonotone(i, -ALPHA_LIMIT_RAD, rad);
      ToPprMonotone(i, rad, ALPHA_LIMIT_RAD);
    }
  }

  lemma AngleWithin(v: real, limit: real)
    requires 0.0 <= limit
    ensures -limit <= Angle(v, limit) <= limit
  {
  }

  // ---------------------------------------------------------------- what a message asks for

  /** The limit of servo i in radians: half a turn for the two beta servos, thirty degrees for the four alpha servos. */
  ghost function LimitOf(i: nat): real {
    if i < 2 then PI else PI / 6.0
  }

  /** The angle that control value v asks of a servo: a fraction of its limit, at most the limit either way. */
  ghost function Commanded(v: real, limit: real): real {
    if v > 1.0 then limit else if v < -1.0 then -limit else v * limit
  }

  lemma AngleIsCommanded(v: real, i: nat)
    requires i < DXL_COUNT
    ensures Angle(v, DXL_LIMIT_RAD[i]) == Commanded(v, LimitOf(i))
  {
    assert DXL_LIMIT_RAD[i] == LimitOf(i);
  }

  /** Servo i at the angle `rad`, in ticks of a 4096th of a turn from 2048; servo 1 turns the other way. */
  ghost function ExactTick(i: nat, rad: real): real {
    2048.0 + (if i == 1 then -rad else rad) * 4096.0 / (2.0 * PI)
  }

  /** The goal is the nearest tick, the upper of two, or the end of the range that the angle is past. */
  ghost predicate NearestTick(goal: int, i: nat, rad: real) {
    var exact := ExactTick(i, rad);
    if exact < 0.0 then goal == 0
    else if exact > 4095.0 then goal == 4095
    else -0.5 < goal as real - exact <= 0.5
  }

  lemma LroundNearest(x: real)
    ensures -0.5 <= Lround(x) as real - x <= 0.5 && (0.0 <= x ==> -0.5 < Lround(x) as real - x)
  {
  }

  lemma TicksAreExact(i: nat, rad: real)
    requires i < DXL_COUNT
    ensures Ticks(i, rad) == ExactTick(i, rad)
  {
    assert DXL_DIRECTION[i] == if i == 1 then -1 else 1;
  }

  /** to_ppr gives the nearest tick. */
  lemma ToPprNearest(i: nat, rad: real)
    requires i < DXL_COUNT
    ensures NearestTick(ToPpr(i, rad), i, rad)
  {
    hide Lround, ExactTick;
    TicksAreExact(i, rad);
    LroundNearest(Ticks(i, rad));
  }

  /** Number of timer events among events f .. m - 1. */
  ghost function Timers(run: seq<Event>, f: nat, m: nat): nat
    requires m <= |run|
  {
    if m <= f then 0 else Timers(run, f, m - 1) + if run[m - 1].Timer? then 1 else 0
  }

  /** One more update towards neutral multiplies by the ratio once more. */
  lemma UpdateScales(l: Lpf, ratio: real, n: nat, start: real)
    requires Sane(l, ratio) && l.y == Pow(ratio, n) * start
    ensures Sane(l.Update(0.0), ratio) && l.Update(0.0).y == Pow(ratio, n + 1) * start
  {
    assert 1.0 - l.alpha == ratio;
    assert ratio * (Pow(ratio, n) * start) == ratio * Pow(ratio, n) * start;
  }
}
