/** What several modules need. */
module Common {

  datatype Option<+T> = None | Some(value: T)

  function MinOf(a: int, b: int): int { if a < b then a else b }

  function Ceil(r: real): int { -((-r).Floor) }

  /** Equality as it is, not element by element. */
  ghost predicate Same<T>(a: T, b: T) { a == b }

  // ---------- products ----------

  /** A product as a named term. */
  function Mul(a: real, b: real): real { a * b }

  lemma MulZero(x: real)
    ensures Mul(x, 0.0) == 0.0 == Mul(0.0, x)
  {
  }

  lemma MulOne(x: real)
    ensures Mul(x, 1.0) == x == Mul(1.0, x)
  {
  }

  lemma MulNonNegative(a: real, b: real)
    requires a >= 0.0 && b >= 0.0
    ensures Mul(a, b) >= 0.0
  {
  }

  lemma MulPositive(a: real, b: real)
    requires a > 0.0 && b > 0.0
    ensures Mul(a, b) > 0.0
  {
  }

  lemma PositiveFactor(x: real, y: real)
    requires y > 0.0 && Mul(x, y) >= 0.0
    ensures x >= 0.0
  {
    if x < 0.0 {
      MulPositive(-x, y);
    }
  }

  lemma MulSum(a: real, x: real, y: real)
    ensures Mul(a, x + y) == Mul(a, x) + Mul(a, y)
    ensures Mul(x + y, a) == Mul(x, a) + Mul(y, a)
  {
  }

  lemma MulDifference(a: real, x: real, y: real)
    ensures Mul(a, x - y) == Mul(a, x) - Mul(a, y)
    ensures Mul(x - y, a) == Mul(x, a) - Mul(y, a)
  {
  }

  lemma MulAssoc(a: real, b: real, c: real)
    ensures Mul(Mul(a, b), c) == Mul(a, Mul(b, c))
  {
  }

  lemma MulSwap(a: real, b: real, c: real)
    ensures Mul(a, Mul(b, c)) == Mul(b, Mul(a, c))
  {
  }
}
