/** `BezierCurve::factoral` (projects/igeek/source/virus_world/igeek_bezier.cc),
    the integer factorial behind the curve's binomial weights. */
module Bezier {

  /** Reference factorial. */
  function Fact(n: nat): nat
  {
    if n == 0 then 1 else n * Fact(n - 1)
  }

  lemma {:induction false} FactPositive(n: nat)
    ensures Fact(n) >= 1
  {
    if n > 0 {
      FactPositive(n - 1);
    }
  }

  /** Regrouping a product, the step the loop invariant of `Factoral` needs
      when it multiplies the running total by the next factor. */
  lemma MulAssoc(a: int, b: int, c: int)
    ensures a * (b * c) == (a * b) * c
  {
  }

  /** The factorial of the absolute value: 0 is a special case giving 1, a
      negative argument is negated, and otherwise the argument is multiplied
      by every integer from one below it down to 2. */
  method Factoral(value: int) returns (total: int)
    ensures total == Fact(if value < 0 then -value else value)
    ensures total >= 1
  {
    if value == 0 {
      return 1;
    }
    var v := value;
    if v < 0 {
      v := v * -1;
    }
    ghost var n: nat := v;
    total := v;
    v := v - 1;
    assert Fact(n) == n * Fact(v);
    while v > 1
      invariant 0 <= v < n
      invariant total * Fact(v) == Fact(n)
    {
      assert Fact(v) == v * Fact(v - 1);
      MulAssoc(total, v, Fact(v - 1));
      total := total * v;
      v := v - 1;
    }
    assert Fact(v) == 1;
    FactPositive(n);
  }
}
