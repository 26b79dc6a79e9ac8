/** The staircase attitude path of `utils.hpp` (stepAttPath). */
module StepPath {
  import opened Params
  import opened Reals
  import opened Paths

  const STEP_CYCLE_SEC: real := 2.0 + 2.0 * 12.0 * 8.0 + 2.0
  const UP_STAGES: int := 12
  const DEG2RAD: real := PI / 180.0

  /** The commanded pitch `stageT` seconds into a stage; stages from 12 on lead back down. */
  function StagePitch(rawStage: int, stageT: real): real {
    var down := rawStage >= UP_STAGES;
    var stage := if down then 2 * UP_STAGES - rawStage - 1 else rawStage;
    var first := if stage < 12 then stage as real * 5.0 else 60.0 + (stage - 12) as real * 1.0;
    var second := if stage < 12 then first + 5.0 else first + 1.0;
    var lower, upper := Min(first, 60.0), Min(second, 60.0);
    var startAngle := (if down then upper else lower) * DEG2RAD;
    var targetAngle := (if down then lower else upper) * DEG2RAD;
    if stageT < 3.0 then startAngle + (targetAngle - startAngle) * Smoothstep(stageT / 3.0) else targetAngle
  }

  function CyclePitch(cycleT: real): real {
    if cycleT < 2.0 then 0.0
    else
      var ts := cycleT - 2.0;
      if ts >= 2.0 * UP_STAGES as real * 8.0 then 0.0
      else StagePitch((ts / 8.0).Floor, FMod(ts, 8.0))
  }

  /** stepAttPath: twelve 5-degree stages up, twelve down, each a 3 s ramp and a 5 s hold. */
  function StepAttPath(t: real): TargetCmd {
    ZERO_TARGET.(pitch := CyclePitch(FMod(t, STEP_CYCLE_SEC)))
  }

  // ---------------------------------------------------------------- slope of a ramp

  lemma ChordIdentity(m: real, d: real)
    ensures Smoothstep(m + d) - Smoothstep(m - d) == 2.0 * d * (6.0 * (m * (1.0 - m)) - 2.0 * (d * d))
  {
  }

  /** The slope of a chord of the smoothstep lies between 0 and 3/2. */
  lemma ChordSlope(m: real, d: real)
    requires 0.0 <= d <= m && d <= 1.0 - m
    ensures 0.0 <= 6.0 * (m * (1.0 - m)) - 2.0 * (d * d) <= 1.5
  {
    MulNonNeg(d, d);
    MulNonNeg(m - d, 1.0 - m);
    MulNonNeg(d, 1.0 - m - d);
    assert m * (1.0 - m) == (m - d) * (1.0 - m) + d * (1.0 - m - d) + d * d;
    var c := m - 0.5;
    assert 0.0 <= c * c;
    assert 1.5 - 6.0 * (m * (1.0 - m)) == 6.0 * (c * c);
  }

  lemma SlopeTimesStep(e: real, s: real, k: real)
    requires 0.0 <= s && 0.0 <= k <= 1.5 && e == s * k
    ensures 0.0 <= e <= 1.5 * s
  {
  }

  lemma SmoothstepChord(a: real, b: real)
    requires 0.0 <= a <= b <= 1.0
    ensures 0.0 <= Smoothstep(b) - Smoothstep(a) <= 1.5 * (b - a)
  {
    var m, d := (a + b) / 2.0, (b - a) / 2.0;
    assert m + d == b && m - d == a;
    ChordIdentity(m, d);
    ChordSlope(m, d);
    SlopeTimesStep(Smoothstep(b) - Smoothstep(a), 2.0 * d, 6.0 * (m * (1.0 - m)) - 2.0 * (d * d));
  }

  lemma RampChord(a: real, b: real)
    requires a <= b
    ensures 0.0 <= Ramp(b) - Ramp(a) <= 1.5 * (b - a)
  {
    if a < 1.0 && 0.0 < b {
      var a', b' := Max(a, 0.0), Min(b, 1.0);
      SmoothstepChord(a', b');
      RampIsSmooth(a');
      RampIsSmooth(b');
    }
  }

  // ---------------------------------------------------------------- the staircase

  /** The staircase as a function of its progress, counted in stages from 0 to 24. */
  ghost function Staircase(q: real): real {
    if q <= 12.0 then 5.0 * q else 5.0 * (24.0 - q)
  }

  /** Active time within a cycle, between the two zero holds. */
  ghost function Active(c: real): real {
    Max(0.0, Min(c - 2.0, 192.0))
  }

  ghost function Progress(n: int, u: real): real {
    n as real + Ramp(u / 3.0)
  }

  /** Stage and time in the stage at c seconds into a cycle. */
  lemma SplitStage(c: real) returns (n: nat, u: real)
    requires 0.0 <= c < 196.0
    ensures Active(c) == 8.0 * n as real + u && 0.0 <= u < 8.0 && n <= 24
    ensures 2.0 <= c < 194.0 ==> n == ((c - 2.0) / 8.0).Floor && u == FMod(c - 2.0, 8.0) && n < 24
    ensures c < 2.0 ==> n == 0 && u == 0.0
    ensures 194.0 <= c ==> n == 24 && u == 0.0
  {
    if c < 2.0 {
      n, u := 0, 0.0;
    } else if c >= 194.0 {
      n, u := 24, 0.0;
    } else {
      n, u := SplitCycle(c - 2.0, 8.0);
    }
  }

  lemma ScaleStep(start: real, target: real, s: real, step: real)
    requires target - start == step
    ensures start + (target - start) * s == start + step * s
  {
  }

  lemma StagePitchIsStaircase(n: int, u: real)
    requires 0 <= n < 24 && 0.0 <= u < 8.0
    ensures StagePitch(n, u) == Staircase(Progress(n, u)) * DEG2RAD
  {
    RampRange(u / 3.0);
    var k := n as real;
    if n < 12 {
      ScaleStep(5.0 * k * DEG2RAD, (5.0 * k + 5.0) * DEG2RAD, Smoothstep(u / 3.0), 5.0 * DEG2RAD);
    } else {
      ScaleStep(5.0 * (24.0 - k) * DEG2RAD, 5.0 * (23.0 - k) * DEG2RAD, Smoothstep(u / 3.0), -5.0 * DEG2RAD);
    }
  }

  lemma RampRange(a: real)
    ensures 0.0 <= Ramp(a) <= 1.0
  {
    if a > 0.0 { RampFromFoot(a); }
  }

  lemma CyclePitchIsStaircase(c: real) returns (n: nat, u: real)
    requires 0.0 <= c < 196.0
    ensures Active(c) == 8.0 * n as real + u && 0.0 <= u < 8.0 && n <= 24
    ensures n == 24 ==> u == 0.0
    ensures CyclePitch(c) == Staircase(Progress(n, u)) * DEG2RAD
  {
    n, u := SplitStage(c);
    if 2.0 <= c < 194.0 {
      StagePitchIsStaircase(n, u);
    } else {
      assert Ramp(u / 3.0) == 0.0;
    }
  }

  /** What stepAttPath commands, in degrees, is the staircase of the progress. */
  lemma PitchInStage(t: real) returns (m: nat, c: real, n: nat, u: real)
    requires 0.0 <= t
    ensures t == 196.0 * m as real + c && 0.0 <= c < 196.0
    ensures Active(c) == 8.0 * n as real + u && 0.0 <= u < 8.0 && n <= 24
    ensures n == 24 ==> u == 0.0
    ensures StepAttPath(t).pitch == Staircase(Progress(n, u)) * DEG2RAD
  {
    m, c := SplitCycle(t, STEP_CYCLE_SEC);
    n, u := CyclePitchIsStaircase(c);
  }

  lemma ProgressRange(n: int, u: real)
    requires 0 <= n <= 24 && 0.0 <= u < 8.0 && (n == 24 ==> u == 0.0)
    ensures 0.0 <= Progress(n, u) <= 24.0
  {
    RampRange(u / 3.0);
  }

  /** Progress runs forwards, at most one stage in two seconds, across any number of stages. */
  lemma ProgressSlope(n1: int, u1: real, n2: int, u2: real)
    requires 0.0 <= u1 < 8.0 && 0.0 <= u2 < 8.0
    requires 8.0 * n1 as real + u1 <= 8.0 * n2 as real + u2
    ensures 0.0 <= Progress(n2, u2) - Progress(n1, u1) <= 0.5 * (8.0 * n2 as real + u2 - (8.0 * n1 as real + u1))
  {
    if n1 == n2 {
      RampChord(u1 / 3.0, u2 / 3.0);
    } else {
      assert n1 < n2;
      RampChord(u1 / 3.0, 8.0 / 3.0);
      RampChord(0.0, u2 / 3.0);
    }
  }

  lemma StaircaseSlope(q1: real, q2: real)
    requires 0.0 <= q1 <= q2 <= 24.0
    ensures Abs(Staircase(q2) - Staircase(q1)) <= 5.0 * (q2 - q1)
    ensures 0.0 <= Staircase(q1) <= 60.0
    ensures Staircase(q1) <= 5.0 * q1 && Staircase(q1) <= 5.0 * (24.0 - q1)
  {
  }

  /** The pitch stays between 0 and 60 degrees. */
  lemma StepAttRange(t: real)
    requires 0.0 <= t
    ensures 0.0 <= StepAttPath(t).pitch <= PITCH_MAX
  {
    var m, c, n, u := PitchInStage(t);
    ProgressRange(n, u);
    StaircaseSlope(Progress(n, u), Progress(n, u));
  }

  lemma FModShift(t: real, k: nat)
    requires 0.0 <= t
    ensures FMod(t + 196.0 * k as real, 196.0) == FMod(t, 196.0)
  {
    var n, u := SplitCycle(t, 196.0);
    var n', u' := SplitCycle(t + 196.0 * k as real, 196.0);
    assert n' == n + k;
  }

  /** The path repeats every cycle. */
  lemma StepAttPeriodic(t: real, k: nat)
    requires 0.0 <= t
    ensures StepAttPath(t + STEP_CYCLE_SEC * k as real) == StepAttPath(t)
  {
    FModShift(t, k);
  }

  lemma SlopeWithinCycle(c1: real, n1: int, u1: real, c2: real, n2: int, u2: real)
    requires 0 <= n1 <= 24 && 0.0 <= u1 < 8.0 && (n1 == 24 ==> u1 == 0.0)
    requires 0 <= n2 <= 24 && 0.0 <= u2 < 8.0 && (n2 == 24 ==> u2 == 0.0)
    requires c1 <= c2
    requires Active(c1) == 8.0 * n1 as real + u1 && Active(c2) == 8.0 * n2 as real + u2
    ensures Abs(Staircase(Progress(n2, u2)) - Staircase(Progress(n1, u1))) <= 2.5 * (c2 - c1)
  {
    ProgressSlope(n1, u1, n2, u2);
    ProgressRange(n1, u1);
    ProgressRange(n2, u2);
    StaircaseSlope(Progress(n1, u1), Progress(n2, u2));
  }

  /** Across the wrap the staircase is bounded by the way from the start and to the end of its cycle. */
  lemma NearCycleEnds(c: real, n: int, u: real)
    requires 0.0 <= c < 196.0
    requires 0 <= n <= 24 && 0.0 <= u < 8.0 && (n == 24 ==> u == 0.0)
    requires Active(c) == 8.0 * n as real + u
    ensures 0.0 <= Staircase(Progress(n, u)) <= 2.5 * c
    ensures Staircase(Progress(n, u)) <= 2.5 * (196.0 - c)
  {
    ProgressSlope(0, 0.0, n, u);
    ProgressSlope(n, u, 24, 0.0);
    ProgressRange(n, u);
    StaircaseSlope(Progress(n, u), Progress(n, u));
    assert Progress(0, 0.0) == 0.0 && Progress(24, 0.0) == 24.0;
  }

  lemma SlopeAcrossCycles(m1: nat, c1: real, n1: int, u1: real, m2: nat, c2: real, n2: int, u2: real)
    requires 0 <= n1 <= 24 && 0.0 <= u1 < 8.0 && (n1 == 24 ==> u1 == 0.0)
    requires 0 <= n2 <= 24 && 0.0 <= u2 < 8.0 && (n2 == 24 ==> u2 == 0.0)
    requires 0.0 <= c1 < 196.0 && 0.0 <= c2 < 196.0
    requires Active(c1) == 8.0 * n1 as real + u1 && Active(c2) == 8.0 * n2 as real + u2
    requires 196.0 * m1 as real + c1 <= 196.0 * m2 as real + c2
    ensures Abs(Staircase(Progress(n2, u2)) - Staircase(Progress(n1, u1)))
         <= 2.5 * (196.0 * m2 as real + c2 - (196.0 * m1 as real + c1))
  {
    if m1 == m2 {
      SlopeWithinCycle(c1, n1, u1, c2, n2, u2);
    } else {
      assert m1 < m2;
      NearCycleEnds(c1, n1, u1);
      NearCycleEnds(c2, n2, u2);
    }
  }

  lemma ToRadians(p2: real, p1: real, s2: real, s1: real, d: real)
    requires p2 == s2 * DEG2RAD && p1 == s1 * DEG2RAD
    requires Abs(s2 - s1) <= 2.5 * d
    ensures Abs(p2 - p1) <= 2.5 * DEG2RAD * d
  {
  }

  /** Between any two times the pitch changes by at most 2.5 degrees per second. */
  lemma StepAttSlope(t1: real, t2: real)
    requires 0.0 <= t1 <= t2
    ensures Abs(StepAttPath(t2).pitch - StepAttPath(t1).pitch) <= 2.5 * DEG2RAD * (t2 - t1)
  {
    hide StepAttPath, Staircase, Progress, Active;
    var m1, c1, n1, u1 := PitchInStage(t1);
    var m2, c2, n2, u2 := PitchInStage(t2);
    SlopeAcrossCycles(m1, c1, n1, u1, m2, c2, n2, u2);
    ToRadians(StepAttPath(t2).pitch, StepAttPath(t1).pitch,
              Staircase(Progress(n2, u2)), Staircase(Progress(n1, u1)), t2 - t1);
  }

  /**
   In every cycle the pitch rests at zero for two seconds, then twelve times climbs five degrees in three seconds and
   rests for five, comes down the same way and rests at zero for two seconds again; nothing else is commanded.
   */
  lemma StepAttHolds(m: nat, c: real, n: nat, u: real)
    requires 0.0 <= c < 196.0
    ensures var p := StepAttPath(196.0 * m as real + c);
            && (c <= 2.0 || 194.0 <= c ==> p == ZERO_TARGET)
            && (n < 24 && c == 2.0 + 8.0 * n as real + u && 3.0 <= u < 8.0 ==>
                  p == ZERO_TARGET.(pitch := 5.0 * (if n < 12 then n + 1 else 23 - n) as real * DEG2RAD))
            && p == ZERO_TARGET.(pitch := p.pitch)
  {
    CycleIs(196.0 * m as real + c, 196.0, m, c);
    if n < 24 && c == 2.0 + 8.0 * n as real + u && 3.0 <= u < 8.0 {
      CycleIs(c - 2.0, 8.0, n, u);
      StagePitchIsStaircase(n, u);
    } else if c == 2.0 {
      CycleIs(0.0, 8.0, 0, 0.0);
    }
  }
}
