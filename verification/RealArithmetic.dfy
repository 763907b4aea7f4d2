/** The few facts about products of reals that the curve proofs appeal to by name. */
module RealArithmetic {

  lemma ProductNonnegative(x: real, y: real)
    requires x >= 0.0 && y >= 0.0
    ensures x * y >= 0.0
  {
  }

  lemma SquareNonnegative(x: real)
    ensures x * x >= 0.0
  {
  }

  lemma Distribute(a: real, b: real, s: real)
    ensures (a + b) * s == a * s + b * s
  {
  }

  lemma Quotient(value: real, span: real) returns (q: real)
    requires span > 0.0
    ensures q * span == value
  {
    q := value / span;
  }

  lemma QuotientUnique(value: real, span: real, q: real)
    requires span > 0.0 && value == q * span
    ensures value / span == q
  {
  }

  /** Cubing is increasing. */
  lemma CubeOrder(x: real, y: real)
    requires x <= y
    ensures x * x * x <= y * y * y
  {
    var d := y - x;
    var s := x * x + x * y + y * y;
    SquareNonnegative(x);
    SquareNonnegative(y);
    SquareNonnegative(x + y);
    assert 2.0 * s == x * x + y * y + (x + y) * (x + y);
    ProductNonnegative(d, s);
    assert d * s == y * y * y - x * x * x;
  }
}
