/** The flight paths of `utils.hpp` that are built from sine and cosine (attPath, circle_demo). */
module TrigPaths {
  import opened Params
  import opened Reals
  import opened Paths
  import opened Trigonometry

  /** attPath: one slow swing of the pitch in forty seconds. */
  function AttPath(sin: real -> real, t: real): TargetCmd {
    var tm := FMod(t, 40.0);
    ZERO_TARGET.(pitch := PITCH_MAX * sin(2.0 * PI / 40.0 * tm))
  }

  /** circle_demo: hover three seconds, then circle with a period of thirty. */
  function CircleDemo(sin: real -> real, cos: real -> real, t: real): TargetCmd {
    if t < 3.0 then ZERO_TARGET
    else
      var angle := 2.0 * PI / 30.0 * (t - 3.0);
      ZERO_TARGET.(x := 0.5 * (cos(angle) - 1.0), y := 0.5 * sin(angle), pitch := 0.0 * sin(angle))
  }

  lemma ScaledSine(s: real)
    requires -1.0 <= s <= 1.0
    ensures -PITCH_MAX <= PITCH_MAX * s <= PITCH_MAX
  {
  }

  /** Although the code takes the time modulo the period, the pitch is one unbroken sine; all else is zero. */
  lemma AttPathLaw(sin: real -> real, cos: real -> real, t: real)
    requires IsTrig(sin, cos) && 0.0 <= t
    ensures AttPath(sin, t) == ZERO_TARGET.(pitch := PI / 3.0 * sin(PI / 20.0 * t))
    ensures -PI / 3.0 <= AttPath(sin, t).pitch <= PI / 3.0
  {
    hide IsTrig;
    var n, u := SplitCycle(t, 40.0);
    UnitLaw(sin, cos, PI / 20.0 * t);
    Periodic(sin, cos, PI / 20.0 * u, n);
    assert PI / 20.0 * u + 2.0 * PI * n as real == PI / 20.0 * t;
    SineBound(sin(PI / 20.0 * t), cos(PI / 20.0 * t));
    ScaledSine(sin(PI / 20.0 * t));
    assert 2.0 * PI / 40.0 * u == PI / 20.0 * u;
    assert PITCH_MAX == PI / 3.0;
  }

  /** The squared distance of two points in the plane. */
  ghost function PlaneDistSq(p: TargetCmd, q: TargetCmd): real {
    (p.x - q.x) * (p.x - q.x) + (p.y - q.y) * (p.y - q.y)
  }

  /** p is the point of the circle with cosine c and sine s. */
  ghost predicate OnCircle(p: TargetCmd, c: real, s: real) {
    p == ZERO_TARGET.(x := 0.5 * (c - 1.0), y := 0.5 * s)
  }

  lemma RadiusOf(p: TargetCmd, c: real, s: real)
    requires OnCircle(p, c, s) && s * s + c * c == 1.0
    ensures (p.x + 0.5) * (p.x + 0.5) + p.y * p.y == 0.25
  {
    assert p.x + 0.5 == 0.5 * c;
    assert 0.5 * c * (0.5 * c) == 0.25 * (c * c) && 0.5 * s * (0.5 * s) == 0.25 * (s * s);
  }

  lemma HalfSquare(u: real, v: real, uu: real, uv: real, vv: real)
    requires uu == u * u && uv == u * v && vv == v * v
    ensures (0.5 * u - 0.5 * v) * (0.5 * u - 0.5 * v) == 0.25 * (uu - 2.0 * uv + vv)
  {
    assert (u - v) * (u - v) == uu - 2.0 * uv + vv;
    assert 0.5 * u - 0.5 * v == 0.5 * (u - v);
  }

  lemma ChordOf(p: TargetCmd, c: real, s: real, p': TargetCmd, c': real, s': real, d: real)
    requires OnCircle(p, c, s) && OnCircle(p', c', s')
    requires s * s + c * c == 1.0 && s' * s' + c' * c' == 1.0 && d == c' * c + s' * s
    ensures PlaneDistSq(p, p') == 0.5 * (1.0 - d)
  {
    HalfSquare(c, c', c * c, c * c', c' * c');
    HalfSquare(s, s', s * s, s * s', s' * s');
    assert p.x - p'.x == 0.5 * c - 0.5 * c' && p.y - p'.y == 0.5 * s - 0.5 * s';
  }

  lemma CirclePoint(sin: real -> real, cos: real -> real, t: real)
    requires 3.0 <= t
    ensures var a := PI / 15.0 * (t - 3.0);
            OnCircle(CircleDemo(sin, cos, t), cos(a), sin(a))
  {
    assert PI / 15.0 * (t - 3.0) == 2.0 * PI / 30.0 * (t - 3.0);
  }

  /**
   After the hover the path stays half a metre from (-0.5, 0), level and without yaw, and moves evenly: how far apart
   two of its points are depends on the time between them alone.
   */
  lemma CircleLaw(sin: real -> real, cos: real -> real, t: real, t': real)
    requires IsTrig(sin, cos) && 3.0 <= t && 3.0 <= t'
    ensures var p := CircleDemo(sin, cos, t);
            && (p.x + 0.5) * (p.x + 0.5) + p.y * p.y == 0.25
            && p == ZERO_TARGET.(x := p.x, y := p.y)
    ensures PlaneDistSq(CircleDemo(sin, cos, t), CircleDemo(sin, cos, t')) == 0.5 * (1.0 - cos(PI / 15.0 * (t' - t)))
  {
    hide IsTrig, CircleDemo, PlaneDistSq, OnCircle;
    var a, a' := PI / 15.0 * (t - 3.0), PI / 15.0 * (t' - 3.0);
    var p, p' := CircleDemo(sin, cos, t), CircleDemo(sin, cos, t');
    CirclePoint(sin, cos, t);
    CirclePoint(sin, cos, t');
    UnitLaw(sin, cos, a);
    UnitLaw(sin, cos, a');
    DifferenceLaw(sin, cos, a', a, PI / 15.0 * (t' - t));
    RadiusOf(p, cos(a), sin(a));
    ChordOf(p, cos(a), sin(a), p', cos(a'), sin(a'), cos(PI / 15.0 * (t' - t)));
    LevelPoint(p, cos(a), sin(a));
  }

  lemma LevelPoint(p: TargetCmd, c: real, s: real)
    requires OnCircle(p, c, s)
    ensures p == ZERO_TARGET.(x := p.x, y := p.y)
  {
  }

  /** It begins where it hovered, is at (-0.5, 0.5) a quarter of a period later, and repeats every thirty seconds. */
  lemma CircleCourse(sin: real -> real, cos: real -> real, t: real, n: nat)
    requires IsTrig(sin, cos) && 3.0 <= t
    ensures forall u: real :: u <= 3.0 ==> CircleDemo(sin, cos, u) == ZERO_TARGET
    ensures CircleDemo(sin, cos, 10.5) == ZERO_TARGET.(x := -0.5, y := 0.5)
    ensures CircleDemo(sin, cos, t + 30.0 * n as real) == CircleDemo(sin, cos, t)
  {
    hide IsTrig;
    Quarters(sin, cos);
    var a := 2.0 * PI / 30.0 * (t - 3.0);
    assert 2.0 * PI / 30.0 * (t + 30.0 * n as real - 3.0) == a + 2.0 * PI * n as real;
    Periodic(sin, cos, a, n);
    assert 2.0 * PI / 30.0 * (10.5 - 3.0) == PI / 2.0;
    assert 2.0 * PI / 30.0 * (3.0 - 3.0) == 0.0;
  }
}
