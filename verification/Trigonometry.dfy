/** Sine and cosine, which the code takes from the C++ library: any two functions with their laws. */
module Trigonometry {
  import opened Params

  /** The laws of sine and cosine at two angles. */
  ghost predicate Addition(sin: real -> real, cos: real -> real, a: real, b: real) {
    && sin(a) * sin(a) + cos(a) * cos(a) == 1.0
    && sin(a + b) == sin(a) * cos(b) + cos(a) * sin(b)
    && cos(a + b) == cos(a) * cos(b) - sin(a) * sin(b)
    && cos(a - b) == cos(a) * cos(b) + sin(a) * sin(b)
  }

  /** The laws of sine and cosine that the shape of the paths rests on. */
  ghost predicate IsTrig(sin: real -> real, cos: real -> real) {
    && (forall a: real, b: real :: Addition(sin, cos, a, b))
    && sin(0.0) == 0.0 && cos(0.0) == 1.0 && sin(PI / 2.0) == 1.0 && cos(PI / 2.0) == 0.0
  }

  lemma SumLaw(sin: real -> real, cos: real -> real, a: real, b: real, c: real)
    requires IsTrig(sin, cos) && c == a + b
    ensures sin(c) == sin(a) * cos(b) + cos(a) * sin(b) && cos(c) == cos(a) * cos(b) - sin(a) * sin(b)
  {
    assert Addition(sin, cos, a, b);
  }

  lemma DifferenceLaw(sin: real -> real, cos: real -> real, a: real, b: real, c: real)
    requires IsTrig(sin, cos) && c == a - b
    ensures cos(c) == cos(a) * cos(b) + sin(a) * sin(b)
  {
    assert Addition(sin, cos, a, b);
  }

  lemma UnitLaw(sin: real -> real, cos: real -> real, a: real)
    requires IsTrig(sin, cos)
    ensures sin(a) * sin(a) + cos(a) * cos(a) == 1.0
  {
    assert Addition(sin, cos, a, a);
  }

  lemma Quarters(sin: real -> real, cos: real -> real)
    requires IsTrig(sin, cos)
    ensures sin(0.0) == 0.0 && cos(0.0) == 1.0 && sin(PI / 2.0) == 1.0 && cos(PI / 2.0) == 0.0
  {
  }

  lemma FullTurn(sin: real -> real, cos: real -> real)
    requires IsTrig(sin, cos)
    ensures sin(2.0 * PI) == 0.0 && cos(2.0 * PI) == 1.0
  {
    hide IsTrig;
    Quarters(sin, cos);
    SumLaw(sin, cos, PI / 2.0, PI / 2.0, PI);
    SumLaw(sin, cos, PI, PI, 2.0 * PI);
  }

  /** Whole turns make no difference. */
  lemma {:induction false} Periodic(sin: real -> real, cos: real -> real, a: real, n: nat)
    requires IsTrig(sin, cos)
    ensures sin(a + 2.0 * PI * n as real) == sin(a) && cos(a + 2.0 * PI * n as real) == cos(a)
  {
    hide IsTrig;
    if n > 0 {
      Periodic(sin, cos, a, n - 1);
      FullTurn(sin, cos);
      SumLaw(sin, cos, a + 2.0 * PI * (n - 1) as real, 2.0 * PI, a + 2.0 * PI * n as real);
    }
  }

  lemma SineBound(s: real, c: real)
    requires s * s + c * c == 1.0
    ensures -1.0 <= s <= 1.0
  {
    assert 0.0 <= c * c;
    if s > 1.0 { SquareOverOne(s); }
    if s < -1.0 { SquareOverOne(-s); }
  }

  lemma SquareOverOne(s: real)
    requires s > 1.0
    ensures s * s > 1.0
  {
  }

  /** Twice an angle. */
  lemma DoubleAngle(sin: real -> real, cos: real -> real, a: real)
    requires IsTrig(sin, cos)
    ensures sin(a) == 2.0 * (cos(0.5 * a) * sin(0.5 * a))
    ensures cos(a) == cos(0.5 * a) * cos(0.5 * a) - sin(0.5 * a) * sin(0.5 * a)
  {
    hide IsTrig;
    SumLaw(sin, cos, 0.5 * a, 0.5 * a, a);
  }
}
