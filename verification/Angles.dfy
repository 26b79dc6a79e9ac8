/** Angle unwrapping (`utils.hpp`, unwrapNear and angleErrorAbs). */
module Angles {
  import opened Params
  import opened Reals

  /** k whole turns. */
  function Turns(k: int): real {
    2.0 * PI * k as real
  }

  /** Number of turns a loop must take off an excess `d > PI` to bring it to at most PI. */
  function Excess(d: real): int {
    -((PI - d) / (2.0 * PI)).Floor
  }

  lemma ExcessIsLeast(d: real)
    ensures -PI < d - Turns(Excess(d)) <= PI
  {
  }

  lemma TurnsAreApart(j: int, k: int)
    ensures j < k ==> Turns(j) + 2.0 * PI <= Turns(k)
    ensures Turns(j) == Turns(k) ==> j == k
  {
  }

  /** Closed form of the two loops of unwrapNear: no iteration, a single number of turns. */
  function Unwrap(target: real, reference: real): real {
    var d := target - reference;
    if d > PI then target - Turns(Excess(d))
    else if d < -PI then target + Turns(Excess(-d))
    else target
  }

  /** The result is the target shifted by whole turns, within half a turn of the reference. */
  lemma UnwrapWithinHalfTurn(target: real, reference: real) returns (k: int)
    ensures Unwrap(target, reference) == target + Turns(k)
    ensures Abs(Unwrap(target, reference) - reference) <= PI
  {
    var d := target - reference;
    ExcessIsLeast(d);
    ExcessIsLeast(-d);
    k := if d > PI then -Excess(d) else if d < -PI then Excess(-d) else 0;
  }

  /** Strictly inside half a turn there is only one whole-turn shift, so unwrapping finds it. */
  lemma UnwrapIsTheNearShift(target: real, reference: real, k: int)
    requires Abs(target + Turns(k) - reference) < PI
    ensures Unwrap(target, reference) == target + Turns(k)
  {
    var j := UnwrapWithinHalfTurn(target, reference);
    TurnsAreApart(j, k);
    TurnsAreApart(k, j);
  }

  lemma OneMoreTurn(k: int)
    ensures Turns(k + 1) == Turns(k) + 2.0 * PI && Turns(0) == 0.0
  {
  }

  /** The number of turns that a loop has taken off when it stops. */
  lemma ExcessIsReached(d: real, j: int)
    requires -PI < d - Turns(j) <= PI
    ensures j == Excess(d)
  {
    hide Excess, Turns;
    ExcessIsLeast(d);
    TurnsAreApart(j, Excess(d));
    TurnsAreApart(Excess(d), j);
  }

  lemma ExcessNotPassed(d: real, j: int)
    requires d - Turns(j) > PI
    ensures j < Excess(d)
  {
    hide Excess, Turns;
    ExcessIsLeast(d);
    TurnsAreApart(Excess(d), j);
  }

  /** The loops of unwrapNear terminate on every pair of reals and compute the closed form. */
  method UnwrapNear(start: real, reference: real) returns (target: real)
    ensures target == Unwrap(start, reference)
  {
    hide Excess, Turns;
    target := start;
    ghost var d := start - reference;
    ghost var j, i := 0, 0;
    OneMoreTurn(0);
    while target - reference > PI
      invariant target == start - Turns(j)
      invariant if j == 0 then target == start else j > 0 && d > PI && target - reference > -PI
      decreases Excess(d) - j
    {
      ExcessNotPassed(d, j);
      OneMoreTurn(j);
      target := target - 2.0 * PI;
      j := j + 1;
    }
    if j > 0 { ExcessIsReached(d, j); }
    while target - reference < -PI
      invariant j == 0 ==> target == start + Turns(i)
      invariant j > 0 ==> target == start - Turns(j) && target - reference > -PI
      invariant if i == 0 then j == 0 ==> target == start else i > 0 && d < -PI && target - reference < PI
      decreases Excess(-d) - i
    {
      ExcessNotPassed(-d, i);
      OneMoreTurn(i);
      target := target + 2.0 * PI;
      i := i + 1;
    }
    if i > 0 { ExcessIsReached(-d, i); }
  }

  /** angleErrorAbs. */
  function AngleError(actual: real, target: real): real {
    Abs(Unwrap(actual, target) - target)
  }

  /** The error is the minimum over all whole-turn shifts, and it is attained. */
  lemma AngleErrorIsMinimum(actual: real, target: real) returns (best: int)
    ensures AngleError(actual, target) == Abs(actual + Turns(best) - target) <= PI
    ensures forall k: int :: AngleError(actual, target) <= Abs(actual + Turns(k) - target)
  {
    best := UnwrapWithinHalfTurn(actual, target);
    forall k: int
      ensures AngleError(actual, target) <= Abs(actual + Turns(k) - target)
    {
      TurnsAreApart(best, k);
      TurnsAreApart(k, best);
    }
  }

  lemma AngleErrorSymmetric(a: real, b: real)
    ensures AngleError(a, b) == AngleError(b, a)
  {
  }

  lemma ShiftedErrorNoLarger(a: real, b: real, m: int, n: int)
    ensures AngleError(a + Turns(m), b + Turns(n)) <= AngleError(a, b)
  {
    var j := AngleErrorIsMinimum(a, b);
    var a', b', k := a + Turns(m), b + Turns(n), j - m + n;
    var _ := AngleErrorIsMinimum(a', b');
    assert a' + Turns(k) - b' == a + Turns(j) - b;
    assert AngleError(a', b') <= Abs(a' + Turns(k) - b');
  }

  lemma AngleErrorTurnInvariant(a: real, b: real, m: int, n: int)
    ensures AngleError(a + Turns(m), b + Turns(n)) == AngleError(a, b)
  {
    assert a + Turns(m) + Turns(-m) == a && b + Turns(n) + Turns(-n) == b;
    hide AngleError, Turns;
    ShiftedErrorNoLarger(a, b, m, n);
    ShiftedErrorNoLarger(a + Turns(m), b + Turns(n), -m, -n);
  }

  lemma AngleErrorTriangle(a: real, b: real, c: real)
    ensures AngleError(a, c) <= AngleError(a, b) + AngleError(b, c)
  {
    var i := AngleErrorIsMinimum(a, b);
    var j := AngleErrorIsMinimum(b, c);
    var _ := AngleErrorIsMinimum(a, c);
    assert AngleError(a, c) <= Abs(a + Turns(i + j) - c);
  }
}
