/** The flight paths of `utils.hpp` that are built from cubic ramps. */
module Paths {
  import opened Reals

  /** `struct TargetCMD`. */
  datatype TargetCmd = TargetCmd(x: real, y: real, z: real, vx: real, vy: real, roll: real, pitch: real, yaw: real)

  const ZERO_TARGET := TargetCmd(0.0, 0.0, 0.0, 0.0, 0.0, 0.0, 0.0, 0.0)

  /** C conversion of a real to an integer: towards zero. */
  function Trunc(x: real): int {
    if x >= 0.0 then x.Floor else -((-x).Floor)
  }

  /** std::fmod: the remainder has the sign of the dividend. */
  function FMod(t: real, c: real): real
    requires c > 0.0
  {
    t - c * Trunc(t / c) as real
  }

  /** C's `%` on int. */
  function CMod(n: int, d: int): int
    requires d > 0
  {
    if n >= 0 then n % d else -((-n) % d)
  }

  function Smoothstep(a: real): real {
    a * a * (3.0 - 2.0 * a)
  }

  /** posPath with TWO_POINT set: back and forth between the origin and (1, 0). */
  function PosPath(t: real): TargetCmd {
    var phase := CMod((t / 5.0).Floor, 2);
    var localT := FMod(t, 5.0);
    var (p0x, p0y) := if phase == 0 then (0.0, 0.0) else (1.0, 0.0);
    var (p1x, p1y) := if phase == 0 then (1.0, 0.0) else (0.0, 0.0);
    var a := localT / 2.0;
    var moving := localT < 2.0;
    var s := if moving then Smoothstep(a) else 1.0;
    var rate := if moving then 6.0 * a * (1.0 - a) / 2.0 else 0.0;
    ZERO_TARGET.(x := p0x + (p1x - p0x) * s, y := p0y + (p1y - p0y) * s,
                 vx := (p1x - p0x) * rate, vy := (p1y - p0y) * rate)
  }

  /** demo_straight: hold, move one metre along y, hold, move back. */
  function DemoStraight(t: real): TargetCmd {
    var tm := FMod(Max(0.0, t), 12.0);
    if tm < 5.0 then ZERO_TARGET
    else if tm < 6.0 then
      var a := (tm - 5.0) / 1.0;
      ZERO_TARGET.(y := 1.0 * Smoothstep(a), vy := 1.0 * 6.0 * a * (1.0 - a) / 1.0)
    else if tm < 11.0 then ZERO_TARGET.(y := 1.0)
    else
      var a := (tm - 10.0 - 1.0) / 1.0;
      ZERO_TARGET.(y := 1.0 * (1.0 - Smoothstep(a)), vy := -1.0 * 6.0 * a * (1.0 - a) / 1.0)
  }

  // ---------------------------------------------------------------- ramps

  /** The smoothstep extended by its end values to every real. */
  ghost function Ramp(a: real): real {
    if a <= 0.0 then 0.0 else if a < 1.0 then Smoothstep(a) else 1.0
  }

  ghost function RampRate(a: real): real {
    if 0.0 <= a < 1.0 then 6.0 * a * (1.0 - a) else 0.0
  }

  /** The second-order remainder of a motion: what is left of a step beyond position and velocity. */
  ghost function Remainder(p': real, p: real, v: real, h: real): real {
    Abs(p' - p - v * h)
  }

  lemma ScaledBound(e: real, q: real, c: real)
    requires 0.0 <= q && -3.0 <= c <= 3.0 && e == q * c
    ensures Abs(e) <= 3.0 * q
  {
    MulNonNeg(q, 3.0 - c);
    MulNonNeg(q, 3.0 + c);
  }

  /** From the foot: a ramp stays below three times the square of the way up. */
  lemma RampFromFoot(b: real)
    requires 0.0 <= b
    ensures 0.0 <= Ramp(b) <= 3.0 * (b * b)
    ensures Ramp(b) <= 1.0
  {
    if b < 1.0 {
      var q, d := b * b, 1.0 - b;
      MulNonNeg(b, b);
      MulNonNeg(d, d);
      MulNonNeg(q, b);
      MulNonNeg(q, 3.0 - 2.0 * b);
      MulNonNeg(d * d, 1.0 + 2.0 * b);
      assert 1.0 - Smoothstep(b) == d * d * (1.0 + 2.0 * b);
      assert Smoothstep(b) == 3.0 * q - 2.0 * (q * b);
    } else {
      SquareBound(1.0, b);
    }
  }

  lemma InsideIdentity(a: real, h: real)
    ensures Smoothstep(a + h) - Smoothstep(a) - 6.0 * a * (1.0 - a) * h == h * h * (3.0 - 6.0 * a - 2.0 * h)
  {
  }

  lemma RampIsSmooth(a: real)
    requires 0.0 <= a <= 1.0
    ensures Ramp(a) == Smoothstep(a) && RampRate(a) == 6.0 * a * (1.0 - a)
  {
  }

  lemma InsideBound(a: real, h: real)
    requires 0.0 <= a && 0.0 <= h && a + h <= 1.0
    ensures Abs(Smoothstep(a + h) - Smoothstep(a) - 6.0 * a * (1.0 - a) * h) <= 3.0 * (h * h)
  {
    InsideIdentity(a, h);
    MulNonNeg(h, h);
    ScaledBound(Smoothstep(a + h) - Smoothstep(a) - 6.0 * a * (1.0 - a) * h, h * h, 3.0 - 6.0 * a - 2.0 * h);
  }

  /** Inside the ramp the second-order remainder is the square of the step times 3 - 6a - 2h. */
  lemma RampInside(a: real, b: real, h: real)
    requires 0.0 <= a && 0.0 <= h && b == a + h <= 1.0
    ensures Remainder(Ramp(b), Ramp(a), RampRate(a), h) <= 3.0 * (h * h)
  {
    InsideBound(a, h);
    RampIsSmooth(a);
    RampIsSmooth(b);
  }

  lemma PastTopIdentity(c: real, g: real)
    ensures 1.0 - Smoothstep(1.0 - c) - 6.0 * (1.0 - c) * c * (c + g)
         == -3.0 * (c * c) + 4.0 * (c * c * c) - 6.0 * (c * g) + 6.0 * (c * g * c)
  {
  }

  lemma PastTopLinear(cc: real, cg: real, gg: real, ccc: real, cgc: real)
    requires 0.0 <= ccc <= cc && 0.0 <= cgc <= cg && 0.0 <= gg
    ensures Abs(-3.0 * cc + 4.0 * ccc - 6.0 * cg + 6.0 * cgc) <= 3.0 * (cc + 2.0 * cg + gg)
  {
  }

  lemma SquareOfSum(c: real, g: real)
    ensures (c + g) * (c + g) == c * c + 2.0 * (c * g) + g * g
  {
  }

  lemma PastTopBound(c: real, g: real)
    requires 0.0 < c <= 1.0 && 0.0 <= g
    ensures Abs(-3.0 * (c * c) + 4.0 * (c * c * c) - 6.0 * (c * g) + 6.0 * (c * g * c)) <= 3.0 * ((c + g) * (c + g))
  {
    MulNonNeg(c, c);
    MulNonNeg(g, g);
    MulNonNeg(c, g);
    MulAtMost(c * c, c);
    MulAtMost(c * g, c);
    PastTopLinear(c * c, c * g, g * g, c * c * c, c * g * c);
    SquareOfSum(c, g);
  }

  /** From inside the ramp to beyond its top. */
  lemma RampPastTop(a: real, b: real, h: real)
    requires 0.0 <= a < 1.0 <= b && b == a + h
    ensures Remainder(Ramp(b), Ramp(a), RampRate(a), h) <= 3.0 * (h * h)
  {
    var c, g := 1.0 - a, b - 1.0;
    assert c + g == h && 1.0 - c == a;
    PastTopBound(c, g);
    PastTopIdentity(c, g);
    RampIsSmooth(a);
  }

  lemma RampBelowFoot(a: real, b: real, h: real)
    requires a < 0.0 <= h && b == a + h
    ensures Remainder(Ramp(b), Ramp(a), RampRate(a), h) <= 3.0 * (h * h)
  {
    if b > 0.0 {
      RampFromFoot(b);
      SquareBound(b, h);
    } else {
      MulNonNeg(h, h);
    }
  }

  /** The rate is the derivative of the ramp everywhere, with a quadratic remainder. */
  lemma RampTaylor(a: real, b: real, h: real)
    requires 0.0 <= h && b == a + h
    ensures Remainder(Ramp(b), Ramp(a), RampRate(a), h) <= 3.0 * (h * h)
  {
    if a < 0.0 {
      RampBelowFoot(a, b, h);
    } else if a >= 1.0 {
      MulNonNeg(h, h);
    } else if b <= 1.0 {
      RampInside(a, b, h);
    } else {
      RampPastTop(a, b, h);
    }
  }

  // ---------------------------------------------------------------- velocity is the derivative of position

  /** What the step lemmas below need of a ramp f with rate g, besides its remainder bound. */
  ghost predicate IsRamp(f: real -> real, g: real -> real) {
    && (forall a :: a <= 0.0 ==> f(a) == 0.0)
    && (forall a :: 1.0 <= a ==> f(a) == 1.0)
    && (forall a :: a < 0.0 || 1.0 <= a ==> g(a) == 0.0)
    && (forall a :: 0.0 <= f(a) <= 1.0)
    && (forall a :: 0.0 <= g(a) <= 1.5)
  }

  lemma RateBound(a: real)
    ensures 0.0 <= RampRate(a) <= 1.5
  {
    if 0.0 <= a < 1.0 {
      MulNonNeg(a, 1.0 - a);
      var d := 1.0 - 2.0 * a;
      assert 0.0 <= d * d;
      assert 1.5 - 6.0 * a * (1.0 - a) == 1.5 * (d * d);
    }
  }

  lemma RampIsRamp()
    ensures IsRamp(Ramp, RampRate)
  {
    forall a: real
      ensures 0.0 <= Ramp(a) <= 1.0 && 0.0 <= RampRate(a) <= 1.5
    {
      RateBound(a);
      if a > 0.0 { RampFromFoot(a); }
    }
  }

  /** A step that is long against the ramp: the quadratic bound swallows everything. */
  lemma LongStep(p': real, p: real, v: real, h: real, k: real)
    requires 0.0 <= p <= 1.0 && 0.0 <= p' <= 1.0 && 3.0 <= h && 0.75 <= k && Abs(v) <= k
    ensures Remainder(p', p, v, h) <= k * (h * h)
  {
    var kh := k * h;
    MulNonNeg(h, k - v);
    MulNonNeg(h, k + v);
    assert -kh <= v * h <= kh;
    MulNonNeg(k, h - 3.0);
    MulNonNeg(kh, h - 3.0);
    assert kh * (h - 3.0) == k * (h * h) - 3.0 * kh;
  }

  /** For non-negative times fmod and floor split t into whole cycles and a rest. */
  lemma SplitCycle(t: real, c: real) returns (n: nat, u: real)
    requires 0.0 <= t && 0.0 < c
    ensures n == (t / c).Floor && u == FMod(t, c)
    ensures t == c * n as real + u && 0.0 <= u < c
  {
    var q := t / c;
    assert q * c == t;
    assert q >= 0.0;
    n, u := q.Floor, FMod(t, c);
    MulNonNeg(c, q - n as real);
    var d := n as real + 1.0 - q;
    assert c * d > 0.0;
    assert c * d == c * n as real + c - t;
  }

  ghost predicate Even(n: int) {
    n % 2 == 0
  }

  /** posPath in cycle n, u seconds into it: up in even cycles, down in odd ones. */
  ghost function PosX(f: real -> real, n: int, u: real): real {
    if Even(n) then f(u / 2.0) else 1.0 - f(u / 2.0)
  }

  ghost function PosV(g: real -> real, n: int, u: real): real {
    if Even(n) then g(u / 2.0) / 2.0 else -g(u / 2.0) / 2.0
  }

  lemma PosPathInCycle(t: real) returns (n: nat, u: real)
    requires 0.0 <= t
    ensures t == 5.0 * n as real + u && 0.0 <= u < 5.0
    ensures PosPath(t).x == PosX(Ramp, n, u) && PosPath(t).vx == PosV(RampRate, n, u)
    ensures PosPath(t).y == 0.0 && PosPath(t).vy == 0.0
  {
    hide FMod, Smoothstep;
    n, u := SplitCycle(t, 5.0);
    assert CMod(n, 2) == 0 <==> Even(n);
    FootOfStep();
  }

  /** Over two seconds instead of one, a step of h is a step of h / 2. */
  lemma HalfSpeed(p': real, p: real, v: real, h: real)
    requires Remainder(p', p, v, h / 2.0) <= 3.0 * ((h / 2.0) * (h / 2.0))
    ensures Remainder(p', p, v / 2.0, h) <= 0.75 * (h * h)
  {
  }

  lemma Mirror(p': real, p: real, v: real, h: real)
    ensures Remainder(1.0 - p', 1.0 - p, -v, h) == Remainder(p', p, v, h)
  {
    assert -v * h == -(v * h);
  }

  lemma PosStep(f: real -> real, g: real -> real, n: int, u: real, n': int, u': real, h: real)
    requires IsRamp(f, g)
    requires 0.0 <= h && 0.0 <= u < 5.0 && 0.0 <= u' < 5.0
    requires 5.0 * n' as real + u' == 5.0 * n as real + u + h
    requires n' == n ==> Remainder(f(u' / 2.0), f(u / 2.0), g(u / 2.0) / 2.0, h) <= 0.75 * (h * h)
    requires n' != n ==> f(u' / 2.0) <= 0.75 * (h * h)
    ensures Remainder(PosX(f, n', u'), PosX(f, n, u), PosV(g, n, u), h) <= 0.75 * (h * h)
  {
    if h >= 3.0 {
      LongStep(PosX(f, n', u'), PosX(f, n, u), PosV(g, n, u), h, 0.75);
    } else if n' == n {
      Mirror(f(u' / 2.0), f(u / 2.0), g(u / 2.0) / 2.0, h);
    } else {
      assert n' == n + 1 && u >= 2.0;
      assert PosV(g, n, u) == 0.0 && f(u / 2.0) == 1.0;
    }
  }

  lemma HalfSpeedTaylor(u: real, u': real, h: real)
    requires 0.0 <= h && u' == u + h
    ensures Remainder(Ramp(u' / 2.0), Ramp(u / 2.0), RampRate(u / 2.0) / 2.0, h) <= 0.75 * (h * h)
  {
    RampTaylor(u / 2.0, u' / 2.0, h / 2.0);
    HalfSpeed(Ramp(u' / 2.0), Ramp(u / 2.0), RampRate(u / 2.0), h);
  }

  lemma PosVelocityInCycles(n: int, u: real, n': int, u': real, h: real)
    requires 0.0 <= h && 0.0 <= u < 5.0 && 0.0 <= u' < 5.0
    requires 5.0 * n' as real + u' == 5.0 * n as real + u + h
    ensures Remainder(PosX(Ramp, n', u'), PosX(Ramp, n, u), PosV(RampRate, n, u), h) <= 0.75 * (h * h)
  {
    RampIsRamp();
    if n' == n {
      HalfSpeedTaylor(u, u', h);
    } else {
      FootBound(u', h);
    }
    PosStep(Ramp, RampRate, n, u, n', u', h);
  }

  /** posPath commands the derivative of the position it commands, across every boundary. */
  lemma PosPathVelocity(t: real, h: real)
    requires 0.0 <= t && 0.0 <= h
    ensures Remainder(PosPath(t + h).x, PosPath(t).x, PosPath(t).vx, h) <= 0.75 * (h * h)
    ensures Remainder(PosPath(t + h).y, PosPath(t).y, PosPath(t).vy, h) <= 0.75 * (h * h)
  {
    var n, u := PosPathInCycle(t);
    var n', u' := PosPathInCycle(t + h);
    PosVelocityInCycles(n, u, n', u', h);
    MulNonNeg(h, h);
  }

  lemma FootBound(u: real, h: real)
    requires 0.0 <= u <= h
    ensures Ramp(u / 2.0) <= 0.75 * (h * h)
  {
  }

  /** The two ramps of demo_straight, seen from the start of a period. */
  ghost function Out(f: real -> real, u: real): real {
    f(u - 5.0) - f(u - 11.0)
  }

  ghost function OutRate(g: real -> real, u: real): real {
    g(u - 5.0) - g(u - 11.0)
  }

  lemma DemoStraightInPeriod(t: real) returns (n: nat, u: real)
    requires 0.0 <= t
    ensures t == 12.0 * n as real + u && 0.0 <= u < 12.0
    ensures DemoStraight(t).y == Out(Ramp, u) && DemoStraight(t).vy == OutRate(RampRate, u)
    ensures DemoStraight(t).x == 0.0 && DemoStraight(t).vx == 0.0
  {
    n, u := SplitCycle(t, 12.0);
  }

  lemma NextPeriod(n: int, u: real, n': int, u': real, h: real)
    requires 0.0 <= h < 12.0 && 0.0 <= u < 12.0 && 0.0 <= u' < 12.0
    requires 12.0 * n' as real + u' == 12.0 * n as real + u + h
    ensures u' == if u + h < 12.0 then u + h else u + h - 12.0
  {
    assert n' == n || n' == n + 1;
  }

  /** Within five seconds only one of the two ramps moves. */
  lemma OneRampMoves(f: real -> real, g: real -> real, u: real, u': real, h: real)
    requires IsRamp(f, g)
    requires 0.0 <= h < 5.0 && 0.0 <= u < 12.0
    requires u' == if u + h < 12.0 then u + h else u + h - 12.0
    ensures u < 6.0 ==> Out(f, u') == f(u + h - 5.0) && Out(f, u) == f(u - 5.0) && OutRate(g, u) == g(u - 5.0)
    ensures u >= 6.0 ==> Out(f, u') == 1.0 - f(u + h - 11.0) && Out(f, u) == 1.0 - f(u - 11.0)
    ensures u >= 6.0 ==> OutRate(g, u) == -g(u - 11.0)
  {
  }

  lemma OutRange(f: real -> real, g: real -> real, u: real)
    requires IsRamp(f, g)
    ensures 0.0 <= Out(f, u) <= 1.0 && Abs(OutRate(g, u)) <= 3.0
  {
  }

  lemma OutStep(n: int, u: real, n': int, u': real, h: real)
    requires 0.0 <= h && 0.0 <= u < 12.0 && 0.0 <= u' < 12.0
    requires 12.0 * n' as real + u' == 12.0 * n as real + u + h
    ensures Remainder(Out(Ramp, u'), Out(Ramp, u), OutRate(RampRate, u), h) <= 3.0 * (h * h)
  {
    hide Ramp, RampRate, Remainder, Out, OutRate;
    RampIsRamp();
    if h >= 5.0 {
      OutRange(Ramp, RampRate, u);
      OutRange(Ramp, RampRate, u');
      LongStep(Out(Ramp, u'), Out(Ramp, u), OutRate(RampRate, u), h, 3.0);
    } else {
      NextPeriod(n, u, n', u', h);
      OneRampMoves(Ramp, RampRate, u, u', h);
      if u < 6.0 {
        RampTaylor(u - 5.0, u + h - 5.0, h);
      } else {
        RampTaylor(u - 11.0, u + h - 11.0, h);
        Mirror(Ramp(u + h - 11.0), Ramp(u - 11.0), RampRate(u - 11.0), h);
      }
    }
  }

  /** demo_straight commands the derivative of the position it commands, across every boundary. */
  lemma DemoStraightVelocity(t: real, h: real)
    requires 0.0 <= t && 0.0 <= h
    ensures Remainder(DemoStraight(t + h).y, DemoStraight(t).y, DemoStraight(t).vy, h) <= 3.0 * (h * h)
    ensures Remainder(DemoStraight(t + h).x, DemoStraight(t).x, DemoStraight(t).vx, h) <= 3.0 * (h * h)
  {
    var n, u := DemoStraightInPeriod(t);
    var n', u' := DemoStraightInPeriod(t + h);
    OutStep(n, u, n', u', h);
    MulNonNeg(h, h);
  }

  // ---------------------------------------------------------------- where the paths go

  /** The split into whole cycles and a rest is unique. */
  lemma CycleIs(t: real, c: real, n: nat, u: real)
    requires 0.0 < c && t == c * n as real + u && 0.0 <= u < c
    ensures (t / c).Floor == n && FMod(t, c) == u
  {
    MulNonNeg(c, n as real);
    var n', u' := SplitCycle(t, c);
    var d := (n' - n) as real;
    assert c * d == c * n' as real - c * n as real;
    if n < n' { MulNonNeg(c, d - 1.0); }
    if n' < n { MulNonNeg(c, -d - 1.0); }
  }

  /** Before time zero the C remainders mirror those after it. */
  lemma RemaindersMirror(t: real, c: real, n: int, d: int)
    requires 0.0 < c && 0.0 < t && 0 < n && 0 < d
    ensures FMod(-t, c) == -FMod(t, c) && CMod(-n, d) == -CMod(n, d)
  {
    assert -t / c == -(t / c);
  }

  /**
   Every ten seconds posPath goes from the origin to (1, 0) in two seconds, rests there for three, goes back in two
   and rests for three.
   */
  lemma PosPathHolds(n: nat, u: real)
    requires 0.0 <= u < 10.0
    ensures var p := PosPath(10.0 * n as real + u);
            && (2.0 <= u < 5.0 ==> p == ZERO_TARGET.(x := 1.0))
            && (7.0 <= u || u == 0.0 ==> p == ZERO_TARGET)
            && p == ZERO_TARGET.(x := p.x, vx := p.vx)
  {
    hide PosPath;
    var k := if u < 5.0 then 2 * n else 2 * n + 1;
    var rest := if u < 5.0 then u else u - 5.0;
    HalfPeriods(n, k);
    PosPathAt(10.0 * n as real + u, k, rest);
  }

  lemma HalfPeriods(n: nat, k: nat)
    ensures k == 2 * n ==> 5.0 * k as real == 10.0 * n as real && Even(k)
    ensures k == 2 * n + 1 ==> 5.0 * k as real == 10.0 * n as real + 5.0 && !Even(k)
  {
  }

  lemma PosPathAt(t: real, n: nat, u: real)
    requires t == 5.0 * n as real + u && 0.0 <= u < 5.0
    ensures var p := PosPath(t);
            && (2.0 <= u ==> p == ZERO_TARGET.(x := if Even(n) then 1.0 else 0.0))
            && (u == 0.0 && Even(n) ==> p == ZERO_TARGET)
            && p == ZERO_TARGET.(x := p.x, vx := p.vx)
  {
    hide FMod, Smoothstep;
    CycleIs(t, 5.0, n, u);
    assert CMod(n, 2) == 0 <==> Even(n);
    FootOfStep();
  }

  lemma FootOfStep()
    ensures Smoothstep(0.0) == 0.0
  {
  }

  /** Every twelve seconds demo_straight rests for five, moves a metre along y in one, rests for five and moves back. */
  lemma DemoStraightHolds(n: nat, u: real)
    requires 0.0 <= u < 12.0
    ensures var p := DemoStraight(12.0 * n as real + u);
            && (u <= 5.0 ==> p == ZERO_TARGET)
            && (6.0 <= u <= 11.0 ==> p == ZERO_TARGET.(y := 1.0))
            && p == ZERO_TARGET.(y := p.y, vy := p.vy)
  {
    CycleIs(12.0 * n as real + u, 12.0, n, u);
  }
}
