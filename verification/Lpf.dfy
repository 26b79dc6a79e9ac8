/** The first-order low-pass filter of `utils.hpp` and its geometric law. */
module LowPass {
  import opened Reals

  ghost function Pow(r: real, n: nat): real {
    if n == 0 then 1.0 else r * Pow(r, n - 1)
  }

  /** `struct LPF`, a value that C++ copies on assignment. */
  datatype Lpf = Lpf(y: real, alpha: real, initialized: bool) {
    function Update(x: real): Lpf {
      if !initialized then Lpf(x, alpha, true)
      else Lpf(alpha * x + (1.0 - alpha) * y, alpha, true)
    }

    function Reset(x: real): Lpf {
      Lpf(x, alpha, true)
    }
  }

  /** The constructor; `ratio` is the value of pow(0.01, 1 / sample_count). */
  function Make(convergenceTime: real, ratio: real): Lpf {
    Lpf(0.0, if convergenceTime <= 0.0 then 1.0 else 1.0 - ratio, false)
  }

  /** `ratio` is the per-sample decay that leaves one per cent after `samples` samples. */
  ghost predicate IsDecay(ratio: real, samples: nat) {
    0.0 < ratio < 1.0 && Pow(ratio, samples) == 0.01
  }

  lemma PowZero(r: real)
    ensures Pow(r, 0) == 1.0
  {
  }

  lemma {:induction false} PowRange(r: real, n: nat)
    requires 0.0 < r < 1.0
    ensures 0.0 < Pow(r, n) <= 1.0
    ensures n > 0 ==> Pow(r, n) < 1.0
  {
    if n > 0 {
      PowRange(r, n - 1);
      var p := Pow(r, n - 1);
      MulBetween(r, p);
    }
  }

  lemma MulBetween(r: real, p: real)
    requires 0.0 < r < 1.0 && 0.0 < p <= 1.0
    ensures 0.0 < r * p < 1.0 && r * p < p
  {
    assert (1.0 - r) * p > 0.0;
  }

  /** n updates towards a fixed goal. */
  ghost function Repeat(f: Lpf, goal: real, n: nat): Lpf {
    if n == 0 then f else Repeat(f, goal, n - 1).Update(goal)
  }

  /** The point at which a fraction `p` of the error is left. */
  ghost function Toward(error: real, goal: real, p: real): real {
    goal + p * error
  }

  lemma OneMoreUpdate(alpha: real, goal: real, e: real, p: real)
    ensures alpha * goal + (1.0 - alpha) * (goal + p * e) == goal + (1.0 - alpha) * p * e
  {
    var r := 1.0 - alpha;
    assert r * (p * e) == r * p * e;
    assert r * (goal + p * e) == r * goal + r * (p * e);
  }

  /** After n updates the error left is the n-th power of the decay times the first error. */
  lemma {:induction false} GeometricLaw(f: Lpf, goal: real, n: nat)
    requires f.initialized
    ensures Repeat(f, goal, n) == Lpf(Toward(f.y - goal, goal, Pow(1.0 - f.alpha, n)), f.alpha, true)
  {
    if n > 0 {
      GeometricLaw(f, goal, n - 1);
      OneMoreUpdate(f.alpha, goal, f.y - goal, Pow(1.0 - f.alpha, n - 1));
    }
  }

  /** x lies on the way from `start` to `goal`: never past the goal, never behind the start. */
  predicate Between(start: real, x: real, goal: real) {
    if start <= goal then start <= x <= goal else goal <= x <= start
  }

  /** m is a part of e, on the side of e. */
  ghost predicate PartOf(m: real, e: real) {
    if e >= 0.0 then 0.0 <= m <= e else e <= m <= 0.0
  }

  lemma MulShrinks(p: real, e: real, m: real)
    requires 0.0 <= p <= 1.0 && m == p * e
    ensures PartOf(m, e)
  {
    if e >= 0.0 {
      MulAtMost(e, p);
    } else {
      MulAtMost(-e, p);
      assert -e * p == -m;
    }
  }

  lemma PartBetween(m: real, e: real, goal: real)
    requires PartOf(m, e)
    ensures Between(goal + e, goal + m, goal)
  {
  }

  lemma ScaledErrorBetween(error: real, goal: real, p: real)
    requires 0.0 <= p <= 1.0
    ensures Between(goal + error, Toward(error, goal, p), goal)
  {
    hide Between, PartOf;
    var m := p * error;
    MulShrinks(p, error, m);
    PartBetween(m, error, goal);
  }

  /** One more update moves from where the filter is towards the goal, and not past it. */
  lemma UpdateBetween(f: Lpf, goal: real)
    requires f.initialized && 0.0 <= f.alpha <= 1.0
    ensures Between(f.y, f.Update(goal).y, goal)
  {
    var r, y := 1.0 - f.alpha, f.y;
    assert f.alpha * goal + r * y == goal + r * (y - goal);
    ScaledErrorBetween(y - goal, goal, r);
  }

  /** A new filter takes the first value it gets; without a convergence time it follows every value at once. */
  lemma FreshFilter(convergenceTime: real, ratio: real, first: real, next: real)
    ensures var f := Make(convergenceTime, ratio).Update(first);
            && f.y == first
            && f.Update(next).y == if convergenceTime <= 0.0 then next else Toward(first - next, next, ratio)
  {
    assert (1.0 - ratio) * next + ratio * first == next + ratio * (first - next);
  }

  /** No overshoot, and exactly one per cent of the error left after the convergence time. */
  lemma Convergence(f: Lpf, goal: real, n: nat, samples: nat)
    requires f.initialized && IsDecay(1.0 - f.alpha, samples)
    ensures Between(f.y, Repeat(f, goal, n).y, goal)
    ensures Between(Repeat(f, goal, n).y, Repeat(f, goal, n + 1).y, goal)
    ensures Repeat(f, goal, samples).y - goal == 0.01 * (f.y - goal)
  {
    PowRange(1.0 - f.alpha, n);
    GeometricLaw(f, goal, n);
    GeometricLaw(f, goal, samples);
    ScaledErrorBetween(f.y - goal, goal, Pow(1.0 - f.alpha, n));
    UpdateBetween(Repeat(f, goal, n), goal);
  }
}
